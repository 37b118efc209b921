/** The crossfilter itself: records, dimensions, groups and the listeners that keep them in step. */
module Crossfilters {
  import opened Int32
  import opened Sorting
  import opened TypedArrays
  import opened Bitset
  import opened Filters
  import opened Ranking
  import opened Filtering
  import opened Reduction
  import opened Grouping
  import opened Updates
  import opened AllRecords
  import opened Heap

  /** The outcome of a top-k query: the source throws for k below one, unless there is nothing to select from. */
  datatype TopResult<P> = Top(bins: seq<Bin<P>>) | TypeError | RangeError

  function ByOrder<P>(order: P -> real): Bin<P> -> real {
    (b: Bin<P>) => order(b.value)
  }

  ghost predicate IsTopResult<P>(order: P -> real, bins: seq<Bin<P>>, k: int, r: TopResult<P>) {
    && (r.RangeError? <==> k < 0)
    && (r.TypeError? <==> k == 0 && bins != [])
    && (r.Top? ==> k >= 0 && IsTop(ByOrder(order), r.bins, bins, k) && Descending(ByOrder(order), r.bins, 0, |r.bins|))
  }

  /** The k bins with the largest values by the order, largest first. */
  method TopBins<P>(order: P -> real, bins: seq<Bin<P>>, k: int) returns (r: TopResult<P>)
    requires k < MAX_LENGTH || |bins| < MAX_LENGTH
    ensures IsTopResult(order, bins, k, r)
  {
    hide IsTop, Descending;
    if k < 0 {
      r := RangeError;
    } else if k == 0 && bins != [] {
      r := TypeError;
    } else {
      var top := SelectAndSort(ByOrder(order), bins, k);
      r := Top(top);
    }
  }

  /** The number of different elements of a list without repetitions. */
  lemma {:induction false} DistinctCount(s: seq<nat>, t: set<nat>)
    requires Distinct(s) && forall x :: x in s ==> x in t
    ensures |s| <= |t|
    ensures (forall x :: x in t ==> x in s) ==> |s| == |t|
  {
    if s == [] {
      if forall x :: x in t ==> x in s { assert t == {}; }
    } else {
      var n := |s| - 1;
      assert s == s[..n] + [s[n]];
      forall x | x in s[..n] ensures x in t - {s[n]} {
        assert x in s;
      }
      DistinctCount(s[..n], t - {s[n]});
    }
  }

  /** What `filterListeners` holds: each group's current update function, and those of the group-alls. */
  datatype Listener<!T(!new), !P(!new)> =
    | NullListener
    | ManyOf(g: Group<T, P>)
    | OneOf(g: Group<T, P>)
    | AllOf(a: GroupAll<T, P>)

  datatype NewDimension<!T(!new), !P(!new)> = Made(dim: Dimension<T, P>) | InvalidArrayWidth

  /** What `dataListeners` holds. */
  datatype DataListener<!T(!new), !P(!new)> =
    | PreAddOf(dim: Dimension<T, P>)
    | PostAddOf(dim: Dimension<T, P>)
    | AddOf(a: GroupAll<T, P>)

  class Dimension<T(!new), P(!new)> {
    const one: nat
    const value: T -> real
    var values: seq<real>
    var index: seq<nat>
    var newValues: seq<real>
    var newIndex: seq<nat>
    var refilter: Filter
    var lo0: nat
    var hi0: nat
    var indexListeners: seq<Group<T, P>>

    constructor (one: nat, value: T -> real)
      ensures this.one == one && this.value == value
      ensures refilter == All && indexListeners == []
      ensures OKAt([])
    {
      this.one, this.value := one, value;
      values, index, newValues, newIndex := [], [], [], [];
      refilter, lo0, hi0, indexListeners := All, 0, 0, [];
    }

    /** The dimension's value of each record. */
    ghost function ValuesOf(data: seq<T>): (all: seq<real>)
      ensures |all| == |data|
    {
      seq(|data|, r requires 0 <= r < |data| => value(data[r]))
    }

    /** The order and the bounds are those of the records. */
    ghost predicate OKAt(data: seq<T>)
      reads this`values, this`index, this`refilter, this`lo0, this`hi0
    {
      && Ranked(ValuesOf(data), values, index)
      && IsBounds(refilter, values, lo0, hi0)
    }

    /** The dimension's bits are clear exactly for the records its filter lets pass. */
    ghost predicate BitsAt(data: seq<T>, blocked: seq<set<nat>>)
      reads this`refilter
    {
      && |data| <= |blocked|
      && forall r :: 0 <= r < |data| ==> (one in blocked[r] <==> !Passes(refilter, value(data[r])))
    }

    lemma OrderOf(data: seq<T>)
      requires OKAt(data)
      ensures Ranked(ValuesOf(data), values, index)
    {
    }

    lemma IndexFacts(data: seq<T>)
      requires OKAt(data)
      ensures IsIndex(index, |data|) && |values| == |data|
      ensures forall r: nat :: r < |data| ==> r in index
    {
      PermutationFacts(index, |data|);
    }

    /** The bits seen by rank instead of by record. */
    lemma BitsByRank(data: seq<T>, blocked: seq<set<nat>>)
      requires OKAt(data) && |blocked| == |data|
      ensures IsIndex(index, |data|) && lo0 <= |data| && hi0 <= |data|
      ensures BitsAt(data, blocked) <==> BitsMatch(index, blocked, one, lo0, hi0)
    {
      IndexFacts(data);
      BoundsSelect(refilter, values, lo0, hi0);
      if BitsMatch(index, blocked, one, lo0, hi0) {
        forall r: nat | r < |data| ensures one in blocked[r] <==> !Passes(refilter, value(data[r])) {
          assert r in index;
          var p :| 0 <= p < |index| && index[p] == r;
        }
      }
    }

    /** The bits once the new records outside the bounds have been marked. */
    lemma MarkedBits(data: seq<T>, n0: nat, before: seq<set<nat>>, after: seq<set<nat>>, values1: seq<real>,
        index1: seq<nat>, lo1: nat, hi1: nat)
      requires n0 <= |data| == |before| == |after| && after[..n0] == before[..n0]
      requires Ranked(ValuesOf(data[n0..]), values1, index1) && IsBounds(refilter, values1, lo1, hi1)
      requires BitsAt(data[..n0], before) && forall r :: n0 <= r < |data| ==> one !in before[r]
      requires forall p :: 0 <= p < |index1| ==>
        n0 + index1[p] < |data| && after[n0 + index1[p]] == if lo1 <= p < hi1 then before[n0 + index1[p]]
          else before[n0 + index1[p]] + {one}
      ensures BitsAt(data, after) && OnlyBit(before, after, one)
    {
      PermutationFacts(index1, |data| - n0);
      BoundsSelect(refilter, values1, lo1, hi1);
      forall r: nat | r < |data|
        ensures one in after[r] <==> !Passes(refilter, value(data[r]))
        ensures after[r] == before[r] || after[r] == before[r] + {one}
      {
        if r < n0 {
          assert after[r] == after[..n0][r] == before[..n0][r];
          assert data[..n0][r] == data[r];
        } else {
          assert r - n0 in index1;
          var p :| 0 <= p < |index1| && index1[p] == r - n0;
          assert data[n0..][r - n0] == data[r];
        }
      }
    }

    lemma ValuesSplit(data: seq<T>, n0: nat)
      requires n0 <= |data|
      ensures ValuesOf(data)[..n0] == ValuesOf(data[..n0]) && ValuesOf(data)[n0..] == ValuesOf(data[n0..])
    {
    }

    /** Ranks the new records and puts out those the filter does not let pass. */
    method MarkNew(data: seq<T>, newData: seq<T>, n0: nat, bits: FilterBits) returns (lo1: nat, hi1: nat)
      requires n0 <= |data| <= MAX_LENGTH && data[n0..] == newData
      requires bits.Valid() && |bits.blocked| == |data| && one < bits.width
      requires BitsAt(data[..n0], bits.blocked)
      requires forall r :: n0 <= r < |data| ==> one !in bits.blocked[r]
      modifies this`newValues, this`newIndex, bits
      ensures Ranked(ValuesOf(newData), newValues, newIndex) && IsBounds(refilter, newValues, lo1, hi1)
      ensures BitsAt(data, bits.blocked)
      ensures bits.Valid() && bits.width == old(bits.width) && OnlyBit(old(bits.blocked), bits.blocked, one)
      ensures bits.blocked[..n0] == old(bits.blocked)[..n0]
    {
      hide OnlyBit, BitsAt, Ranked, IsBounds;
      newValues, newIndex := Rank(seq(|newData|, r requires 0 <= r < |newData| => value(newData[r])));
      RankedFacts(ValuesOf(newData), newValues, newIndex);
      lo1, hi1 := Refilter(refilter, newValues);
      BoundsSelect(refilter, newValues, lo1, hi1);
      ghost var before := bits.blocked;
      MarkFiltered(bits, newIndex, n0, lo1, hi1, one);
      MarkedBits(data, n0, before, bits.blocked, newValues, newIndex, lo1, hi1);
    }

    /** Takes the new records into the dimension's order and puts out those its filter does not let pass. */
    method PreAdd(data: seq<T>, newData: seq<T>, n0: nat, bits: FilterBits)
      requires n0 <= |data| <= MAX_LENGTH && data[n0..] == newData
      requires bits.Valid() && |bits.blocked| == |data| && one < bits.width
      requires OKAt(data[..n0]) && BitsAt(data[..n0], bits.blocked)
      requires forall r :: n0 <= r < |data| ==> one !in bits.blocked[r]
      modifies this, bits
      ensures OKAt(data) && BitsAt(data, bits.blocked)
      ensures Ranked(ValuesOf(newData), newValues, newIndex)
      ensures bits.Valid() && bits.width == old(bits.width) && OnlyBit(old(bits.blocked), bits.blocked, one)
      ensures bits.blocked[..n0] == old(bits.blocked)[..n0]
      ensures refilter == old(refilter) && indexListeners == old(indexListeners)
    {
      hide OnlyBit, BitsMatch, Ranked, IsBounds;
      var lo1, hi1 := MarkNew(data, newData, n0, bits);
      ValuesSplit(data, n0);
      if n0 == 0 {
        assert data[0..] == data;
        values, index, lo0, hi0 := newValues, newIndex, lo1, hi1;
      } else {
        values, index := Merge(ValuesOf(data), n0, values, index, newValues, newIndex);
        RankedFacts(ValuesOf(data), values, index);
        lo0, hi0 := Refilter(refilter, values);
      }
    }

    /** The dimension has not yet seen the records from n0 on. */
    ghost predicate Waiting(data: seq<T>, n0: nat, blocked: seq<set<nat>>)
      requires n0 <= |data| <= |blocked|
      reads this
    {
      && OKAt(data[..n0]) && BitsAt(data[..n0], blocked)
      && (forall r :: n0 <= r < |data| ==> one !in blocked[r])
    }

    /** The dimension has taken in the records from n0 on, and remembers their order. */
    ghost predicate Ready(data: seq<T>, n0: nat, blocked: seq<set<nat>>)
      requires n0 <= |data| <= |blocked|
      reads this
    {
      && OKAt(data) && BitsAt(data, blocked)
      && Ranked(ValuesOf(data[n0..]), newValues, newIndex)
    }

    /** A change of another dimension's bits does not matter. */
    lemma OtherBit(data: seq<T>, n0: nat, before: seq<set<nat>>, after: seq<set<nat>>, d: nat)
      requires n0 <= |data| == |before| && OnlyBit(before, after, d) && d != one
      ensures Waiting(data, n0, before) ==> Waiting(data, n0, after)
      ensures Ready(data, n0, before) ==> Ready(data, n0, after)
    {
      hide OKAt, Ranked;
      forall r | 0 <= r < |data| ensures one in before[r] <==> one in after[r] {
      }
    }

    method TakeIn(data: seq<T>, newData: seq<T>, n0: nat, bits: FilterBits)
      requires n0 <= |data| <= MAX_LENGTH && data[n0..] == newData
      requires bits.Valid() && |bits.blocked| == |data| && one < bits.width
      requires Waiting(data, n0, bits.blocked)
      modifies this, bits
      ensures bits.Valid() && bits.width == old(bits.width) && OnlyBit(old(bits.blocked), bits.blocked, one)
      ensures |bits.blocked| == |data| && Ready(data, n0, bits.blocked)
      ensures bits.blocked[..n0] == old(bits.blocked)[..n0]
      ensures refilter == old(refilter) && indexListeners == old(indexListeners)
    {
      hide OKAt, BitsAt, Ranked;
      PreAdd(data, newData, n0, bits);
    }

    /** Going from the current filter to the given one goes wrong. */
    ghost predicate Clashes(filter: Filter, data: seq<T>)
      reads this`refilter
    {
      Clash(refilter, filter, ValuesOf(data))
    }

    /** Whether the bounds turn inside out depends on the filters and the values alone. */
    lemma ClashByBounds(filter: Filter, data: seq<T>, lo1: nat, hi1: nat)
      requires OKAt(data) && IsBounds(filter, values, lo1, hi1)
      ensures Clashes(filter, data) <==> TurnsInsideOut(lo0, hi0, lo1, hi1)
    {
      hide IsBounds, Clash, TurnsInsideOut;
      IndexFacts(data);
      var all := ValuesOf(data);
      forall x ensures x in values <==> x in all {
        if x in all {
          var r :| 0 <= r < |data| && all[r] == x;
          assert r in index;
          var p :| 0 <= p < |index| && index[p] == r;
          assert values[p] == x;
        }
      }
      ClashDependsOnValues(refilter, filter, values, all);
      ClashByRank(refilter, filter, values, lo0, hi0, lo1, hi1);
    }

    /** `filterIndex` without its listeners: moves the bounds to those of the new filter, flips the bits of
        the ranks in between and lists their records. The bits are right exactly if the filters do not clash. */
    method Move(filter: Filter, bits: FilterBits, ghost data: seq<T>) returns (added: seq<nat>, removed: seq<nat>)
      requires OKAt(data) && |data| <= MAX_LENGTH
      requires bits.Valid() && |bits.blocked| == |data| && one < bits.width && BitsAt(data, bits.blocked)
      modifies this`refilter, this`lo0, this`hi0, bits
      ensures refilter == filter && OKAt(data)
      ensures bits.Valid() && bits.width == old(bits.width) && |bits.blocked| == |data|
      ensures BitsAt(data, bits.blocked) <==> !old(Clashes(filter, data))
      ensures !old(Clashes(filter, data)) ==> IsChange(old(bits.blocked), bits.blocked, one, added, removed)
    {
      hide Ranked, IsBounds, IsChange, BitsAt, BitsMatch, FlippedLow, FlippedHigh, TurnsInsideOut, Clashes;
      RankedFacts(ValuesOf(data), values, index);
      ghost var before := bits.blocked;
      BitsByRank(data, before);
      BoundsSelect(refilter, values, lo0, hi0);
      var lo1, hi1 := Refilter(filter, values);
      BoundsSelect(filter, values, lo1, hi1);
      ClashByBounds(filter, data, lo1, hi1);
      refilter := filter;
      added, removed := FlipDelta(bits, index, one, lo0, hi0, lo1, hi1);
      if TurnsInsideOut(lo0, hi0, lo1, hi1) {
        InsideOutIsWrong(index, before, bits.blocked, one, lo0, hi0, lo1, hi1);
      } else {
        DeltaIsChange(index, before, bits.blocked, one, lo0, hi0, lo1, hi1, added, removed);
      }
      lo0, hi0 := lo1, hi1;
      BitsByRank(data, bits.blocked);
    }
  }

  /** Only dimension d's bit differs. */
  ghost predicate OnlyBit(before: seq<set<nat>>, after: seq<set<nat>>, d: nat) {
    |before| == |after| && forall r :: 0 <= r < |before| ==>
      after[r] == before[r] || after[r] == before[r] + {d} || after[r] == before[r] - {d}
  }

  /** A group's key function must follow the order of the dimension's values. */
  ghost predicate Monotone(key: real -> real) {
    forall x, y :: x <= y ==> key(x) <= key(y)
  }

  class Group<T(!new), P(!new)> {
    const dim: Dimension<T, P>
    const key: real -> real
    var bins: seq<Bin<P>>
    var groupIndex: seq<nat>
    var groupWidth: nat
    var red: Reducer<T, P>
    var order: P -> real
    var update: Listener<T, P>
    var resetNeeded: bool

    constructor (dim: Dimension<T, P>, key: real -> real, red: Reducer<T, P>, order: P -> real)
      ensures this.dim == dim && this.key == key
      ensures bins == [] && groupWidth == 8 && update == NullListener && resetNeeded && this.red == red
        && this.order == order
    {
      this.dim, this.key, this.red, this.order := dim, key, red, order;
      bins, groupIndex, groupWidth, update, resetNeeded := [], [], 8, NullListener, true;
    }

    ghost function Keys(data: seq<T>): (keys: seq<real>)
      ensures |keys| == |data|
    {
      seq(|data|, r requires 0 <= r < |data| => key(dim.value(data[r])))
    }

    /** The update function that goes with the number of bins. */
    function Updater(): Listener<T, P>
      reads this`bins
    {
      if |bins| > 1 then ManyOf(this) else if |bins| == 1 then OneOf(this) else NullListener
    }

    /** The bins group the records by key, and hold their reduce values unless a reset is pending. */
    ghost predicate OKAt(data: seq<T>, blocked: seq<set<nat>>)
      reads this`bins, this`groupIndex, this`groupWidth, this`red, this`resetNeeded
    {
      && Grouped(Keys(data), bins, groupIndex, groupWidth)
      && Lawful(red)
      && (!resetNeeded ==> Reduced(red, data, Keys(data), blocked, dim.one, bins))
    }

    /** The merge's view of the old bins, which were right for the first n0 records. */
    lemma BatchReady(c: Batch<T, P>, data: seq<T>, blocked: seq<set<nat>>, n0: nat, newValues: seq<real>,
        newIndex: seq<nat>)
      requires n0 <= |data| == |blocked| && Monotone(key)
      requires OKAt(data[..n0], blocked[..n0])
      requires Ranked(dim.ValuesOf(data[n0..]), newValues, newIndex)
      requires c.data == data && c.keys == Keys(data) && c.blocked == blocked && c.d == dim.one && c.red == red
      requires c.live == !resetNeeded && c.n0 == n0 && c.oldBins == bins && c.newIndex == newIndex
      requires |c.newKeys| == |newValues| && forall t :: 0 <= t < |newValues| ==> c.newKeys[t] == key(newValues[t])
      ensures BatchOK(c)
    {
      NewReady(c, data, n0, newValues, newIndex);
      OldReady(c, data, blocked, n0);
    }

    lemma NewReady(c: Batch<T, P>, data: seq<T>, n0: nat, newValues: seq<real>, newIndex: seq<nat>)
      requires n0 <= |data| == |c.blocked| && Monotone(key)
      requires Ranked(dim.ValuesOf(data[n0..]), newValues, newIndex)
      requires c.data == data && c.keys == Keys(data) && c.n0 == n0 && c.newIndex == newIndex
      requires |c.newKeys| == |newValues| && forall t :: 0 <= t < |newValues| ==> c.newKeys[t] == key(newValues[t])
      ensures NewRecordsOK(c)
    {
      RankedFacts(dim.ValuesOf(data[n0..]), newValues, newIndex);
      forall s, t | 0 <= s < t < |newValues| ensures c.newKeys[s] <= c.newKeys[t] {
        assert Identity(newValues[s]) <= Identity(newValues[t]);
      }
      forall t | 0 <= t < |newValues| ensures c.keys[n0 + newIndex[t]] == c.newKeys[t] {
        assert data[n0..][newIndex[t]] == data[n0 + newIndex[t]];
      }
    }

    lemma OldReady(c: Batch<T, P>, data: seq<T>, blocked: seq<set<nat>>, n0: nat)
      requires n0 <= |data| == |blocked|
      requires OKAt(data[..n0], blocked[..n0])
      requires c.data == data && c.keys == Keys(data) && c.blocked == blocked && c.d == dim.one && c.red == red
      requires c.live == !resetNeeded && c.n0 == n0 && c.oldBins == bins
      ensures OldBinsOK(c)
    {
      KeysPrefix(data, n0);
      forall j | 0 <= j < |bins|
        ensures bins[j].key in c.keys
        ensures c.live ==> bins[j].value == Fold(c.red, data, Members(c.keys, blocked, c.d, bins[j].key, n0, {}))
      {
        assert bins[j].key in Keys(data[..n0]);
        var members := Members(c.keys, blocked, c.d, bins[j].key, n0, {});
        assert members == AllMembers(Keys(data[..n0]), blocked[..n0], c.d, bins[j].key);
        FoldPrefix(c.red, data, n0, members);
      }
      forall r | 0 <= r < n0 ensures HasKey(bins, c.keys[r]) {
        assert c.keys[r] == Keys(data[..n0])[r];
      }
    }

    lemma KeysPrefix(data: seq<T>, n0: nat)
      requires n0 <= |data|
      ensures Keys(data)[..n0] == Keys(data[..n0])
    {
      forall r | 0 <= r < n0 ensures data[..n0][r] == data[r] {
      }
    }

    /** What the merge leaves in the bins, in terms of the group. */
    lemma BatchDone(c: Batch<T, P>, data: seq<T>, blocked: seq<set<nat>>, bins': seq<Bin<P>>, groupIndex': seq<nat>,
        width': nat)
      requires c.data == data && c.keys == Keys(data) && c.blocked == blocked && c.d == dim.one && c.red == red
        && c.live == !resetNeeded
      requires Lawful(red) && Grouped(c.keys, bins', groupIndex', width') && Settled(c, bins')
      ensures Grouped(Keys(data), bins', if |bins'| > 1 then groupIndex' else [], width')
      ensures !resetNeeded ==> Reduced(red, data, Keys(data), blocked, dim.one, bins')
    {
    }

    /** The group index that the merge starts from, and the width of its elements: the lengthened old one, or zeros
        in a new one when there was none. */
    method StartIndex(n0: nat, n: nat, ghost keys: seq<real>) returns (index: seq<nat>, width: nat)
      requires n0 <= n && |keys| == n0 && Grouped(keys, bins, groupIndex, groupWidth)
      ensures |index| == n && width == groupWidth
      ensures forall r :: 0 <= r < n0 ==> index[r] < |bins| && bins[index[r]].key == keys[r]
    {
      if |bins| > 1 {
        index, width := groupIndex + seq(n - n0, _ => 0), groupWidth;
      } else {
        WidthOfCapacity(groupWidth);
        index, width := seq(n, _ => 0), IndexWidth(Capacity(groupWidth));
        forall r | 0 <= r < n0 ensures index[r] < |bins| && bins[index[r]].key == keys[r] {
          assert HasKey(bins, keys[r]);
          assert index[r] == 0;
        }
      }
    }

    /** `add` without its listeners: takes new records of the dimension into the bins. */
    method Regroup(data: seq<T>, newValues: seq<real>, newIndex: seq<nat>, n0: nat, nil: P, bits: FilterBits)
      requires n0 <= |data| <= MAX_LENGTH && Monotone(key)
      requires bits.Valid() && |bits.blocked| == |data| && dim.one < 32
      requires OKAt(data[..n0], bits.blocked[..n0])
      requires Ranked(dim.ValuesOf(data[n0..]), newValues, newIndex)
      modifies this`bins, this`groupIndex, this`groupWidth
      ensures OKAt(data, bits.blocked)
    {
      hide BatchOK, Settled, Reduced, Ranked, Monotone, Lawful;
      var newKeys := seq(|newValues|, t requires 0 <= t < |newValues| => key(newValues[t]));
      var c := Batch(data, Keys(data), bits.blocked, dim.one, red, !resetNeeded, nil, n0, newKeys, newIndex, bins);
      BatchReady(c, data, bits.blocked, n0, newValues, newIndex);
      var startIndex, startWidth := StartIndex(n0, |data|, Keys(data[..n0]));
      KeysPrefix(data, n0);
      assert OldIndexed(c, startIndex);
      var bins1, groupIndex1, width1 := MergeBins(c, bits, startIndex, startWidth);
      BatchDone(c, data, bits.blocked, bins1, groupIndex1, width1);
      bins, groupWidth := bins1, width1;
      groupIndex := if |bins1| > 1 then groupIndex1 else [];
    }

    lemma OneKey(data: seq<T>, blocked: seq<set<nat>>)
      requires OKAt(data, blocked) && |bins| == 1
      ensures forall r :: 0 <= r < |data| ==> Keys(data)[r] == bins[0].key
    {
      forall r | 0 <= r < |data| ensures Keys(data)[r] == bins[0].key {
        assert HasKey(bins, Keys(data)[r]);
      }
    }

    /** Bins with the same keys group the same records. */
    lemma RevaluedOK(data: seq<T>, bins': seq<Bin<P>>)
      requires Grouped(Keys(data), bins, groupIndex, groupWidth) && SameBinKeys(bins, bins')
      ensures Grouped(Keys(data), bins', groupIndex, groupWidth)
    {
      var keys := Keys(data);
      forall r | 0 <= r < |keys| ensures HasKey(bins', keys[r]) {
        assert HasKey(bins, keys[r]);
        var i :| 0 <= i < |bins| && bins[i].key == keys[r];
        assert bins'[i].key == keys[r];
      }
    }

    /** The group's listener, updateMany or updateOne: adjusts the reduce values when dimension e's filter moves. */
    method Adjust(e: nat, added: seq<nat>, removed: seq<nat>, data: seq<T>, bits: FilterBits, ghost b0: seq<set<nat>>)
      requires bits.Valid() && |bits.blocked| == |data| && dim.one < 32 && e < 32 && |bins| >= 1
      requires OKAt(data, b0) && IsChange(b0, bits.blocked, e, added, removed)
      modifies this`bins
      ensures OKAt(data, bits.blocked) && SameBinKeys(old(bins), bins)
    {
      hide Reduced, IsChange, Lawful;
      if e == dim.one || resetNeeded {
        if !resetNeeded { OwnFilterMoved(e, added, removed, data, b0, bits.blocked); }
        return;
      }
      var bins1;
      if |bins| > 1 {
        bins1 := UpdateMany(red, data, bits, dim.one, e, bins, groupIndex, added, removed, Keys(data), b0);
      } else {
        OneKey(data, b0);
        bins1 := UpdateOne(red, data, bits, dim.one, e, bins, added, removed, Keys(data), b0);
      }
      RevaluedOK(data, bins1);
      bins := bins1;
    }

    /** A group does not observe its own dimension's filter. */
    lemma OwnFilterMoved(e: nat, added: seq<nat>, removed: seq<nat>, data: seq<T>, b0: seq<set<nat>>, b1: seq<set<nat>>)
      requires e == dim.one && IsChange(b0, b1, e, added, removed) && |b1| == |data|
      requires Reduced(red, data, Keys(data), b0, dim.one, bins)
      ensures Reduced(red, data, Keys(data), b1, dim.one, bins)
    {
      forall r | 0 <= r < |b0| ensures b0[r] <= {e} <==> b1[r] <= {e} {
        if r !in added && r !in removed { assert b1[r] == b0[r]; }
      }
      BinsKept(red, data, Keys(data), b0, b1, dim.one, bins);
    }

    /** The bins' values computed from scratch: resetMany, resetOne or nothing to do. */
    method Reset(data: seq<T>, bits: FilterBits)
      requires bits.Valid() && |bits.blocked| == |data| && dim.one < 32
      requires OKAt(data, bits.blocked)
      modifies this`bins, this`resetNeeded
      ensures OKAt(data, bits.blocked) && !resetNeeded && SameBinKeys(old(bins), bins)
    {
      hide Reduced, Lawful;
      var bins1 := bins;
      if |bins| > 1 {
        bins1 := ResetMany(red, data, bits, dim.one, bins, groupIndex, Keys(data));
      } else if |bins| == 1 {
        OneKey(data, bits.blocked);
        bins1 := ResetOne(red, data, bits, dim.one, bins, Keys(data));
      } else {
        NoBins(data, bits.blocked);
      }
      RevaluedOK(data, bins1);
      bins, resetNeeded := bins1, false;
    }

    lemma NoBins(data: seq<T>, blocked: seq<set<nat>>)
      ensures Reduced<T, P>(red, data, Keys(data), blocked, dim.one, [])
    {
    }
  }

  class GroupAll<T(!new), P(!new)> {
    var reduceValue: P
    var red: Reducer<T, P>
    var resetNeeded: bool

    constructor (red: Reducer<T, P>, nil: P)
      ensures resetNeeded && this.red == red
    {
      this.red, reduceValue, resetNeeded := red, nil, true;
    }

    ghost predicate OKAt(data: seq<T>, blocked: seq<set<nat>>)
      reads this
    {
      !resetNeeded ==> reduceValue == Total(red, data, blocked)
    }

    /** `update`. */
    method Adjust(e: nat, added: seq<nat>, removed: seq<nat>, data: seq<T>, bits: FilterBits, ghost b0: seq<set<nat>>)
      requires bits.Valid() && |bits.blocked| == |data| && e < 32 && Lawful(red)
      requires IsChange(b0, bits.blocked, e, added, removed)
      modifies this`reduceValue
      ensures old(OKAt(data, b0)) && NoneLost(bits.blocked, e, removed) ==> OKAt(data, bits.blocked)
    {
      if !resetNeeded {
        reduceValue := UpdateAll(red, data, bits, e, added, removed, reduceValue, b0);
      }
    }

    /** `add`. */
    method Extend(data: seq<T>, n0: nat, bits: FilterBits)
      requires bits.Valid() && n0 <= |bits.blocked| == |data|
      modifies this`reduceValue
      ensures resetNeeded ==> reduceValue == old(reduceValue)
      ensures old(OKAt(data[..n0], bits.blocked[..n0])) ==> OKAt(data, bits.blocked)
    {
      if !resetNeeded {
        reduceValue := AddToAll(red, data, bits, n0, reduceValue);
      }
    }

    /** `value`: recomputes the reduce value if need be. */
    method Value(data: seq<T>, bits: FilterBits) returns (v: P)
      requires bits.Valid() && |bits.blocked| == |data|
      modifies this`reduceValue, this`resetNeeded
      ensures old(OKAt(data, bits.blocked)) ==> v == Total(red, data, bits.blocked)
      ensures old(OKAt(data, bits.blocked)) ==> OKAt(data, bits.blocked)
    {
      if resetNeeded {
        reduceValue := ResetAll(red, data, bits);
        resetNeeded := false;
      }
      v := reduceValue;
    }
  }

  lemma {:induction false} AtMostOnce<A>(s: seq<A>, x: A)
    requires forall i, j :: 0 <= i < j < |s| && s[i] == x ==> s[j] != x
    ensures multiset(s)[x] <= 1
  {
    if s != [] {
      var n := |s| - 1;
      assert s == s[..n] + [s[n]];
      AtMostOnce(s[..n], x);
      if s[n] == x {
        assert x !in s[..n];
      }
    }
  }

  /** A list made up of two lists without repetitions and without common elements has no repetitions. */
  lemma DistinctParts<A>(s: seq<A>, us: seq<A>, vs: seq<A>)
    requires multiset(s) == multiset(us) + multiset(vs)
    requires Distinct(us) && Distinct(vs) && forall i, j :: 0 <= i < |us| && 0 <= j < |vs| ==> us[i] != vs[j]
    ensures Distinct(s)
  {
    forall i, j | 0 <= i < j < |s| ensures s[i] != s[j] {
      TwiceInMultiset(s, i, j);
      AtMostOnce(us, s[i]);
      AtMostOnce(vs, s[i]);
      if s[i] in us { assert s[i] !in vs; }
    }
  }

  lemma {:induction false} MultisetMembers<A>(s: seq<A>, us: seq<A>, vs: seq<A>)
    requires multiset(s) == multiset(us) + multiset(vs)
    ensures forall x :: x in s <==> x in us || x in vs
  {
    forall x ensures x in s <==> x in us || x in vs {
      assert x in s <==> x in multiset(s);
      assert x in us <==> x in multiset(us);
      assert x in vs <==> x in multiset(vs);
    }
  }

  lemma MultisetUpdate<A>(s: seq<A>, i: nat, x: A)
    requires i < |s|
    ensures multiset(s[i := x]) == multiset(s) - multiset{s[i]} + multiset{x}
  {
  }

  /** The first position of x in s. */
  method IndexOf<A(==)>(s: seq<A>, x: A) returns (j: nat)
    requires x in s
    ensures j < |s| && s[j] == x && x !in s[..j]
  {
    j := 0;
    while s[j] != x
      invariant j < |s| && x !in s[..j]
      decreases |s| - j
    {
      j := j + 1;
    }
  }

  class Crossfilter<T(!new), P(!new)> {
    var data: seq<T>
    var m: nat
    const filters: FilterBits
    var filterListeners: seq<Listener<T, P>>
    var dataListeners: seq<DataListener<T, P>>
    /** null, the reduceCount functions and orderNatural, for the type of reduce values. */
    const nil: P
    const counter: Reducer<T, P>
    const natural: P -> real
    /** The closures made so far. */
    ghost var dims: seq<Dimension<T, P>>
    ghost var groups: seq<Group<T, P>>
    ghost var alls: seq<GroupAll<T, P>>
    /** The groups' current update functions. */
    ghost var updates: seq<Listener<T, P>>

    ghost predicate Shape()
      reads this`data, this`m, this`dims, filters
    {
      && filters.Valid() && m == |dims| <= 32 && m <= filters.width
      && |filters.blocked| == |data| <= MAX_LENGTH
      && (forall r, e :: 0 <= r < |data| && e in filters.blocked[r] ==> e < m)
      && Lawful(counter)
    }

    ghost predicate DimsOK()
      reads this`data, this`dims, filters, dims
    {
      forall i :: 0 <= i < |dims| ==>
        dims[i].one == i && dims[i].OKAt(data) && dims[i].BitsAt(data, filters.blocked)
    }

    /** Every group belongs to one of the dimensions. */
    ghost predicate GroupsPlaced()
      reads this`dims, this`groups
    {
      && Distinct(groups)
      && forall g :: g in groups ==> g.dim.one < |dims| && dims[g.dim.one] == g.dim && Monotone(g.key)
    }

    ghost predicate GroupsAt(data: seq<T>, blocked: seq<set<nat>>)
      reads this`groups, groups
    {
      forall g :: g in groups ==> g.OKAt(data, blocked)
    }

    /** Each dimension notifies exactly its own groups of new records. */
    ghost predicate IndexListenersOK()
      reads this`dims, this`groups, dims`indexListeners
    {
      && (forall i :: 0 <= i < |dims| ==> Distinct(dims[i].indexListeners))
      && (forall i, g :: 0 <= i < |dims| && g in dims[i].indexListeners ==> g in groups && g.dim == dims[i])
      && (forall i, g :: g in groups && 0 <= i < |dims| && g.dim == dims[i] ==> g in dims[i].indexListeners)
    }

    ghost predicate AllsAt(data: seq<T>, blocked: seq<set<nat>>)
      reads this`alls, alls
    {
      forall a :: a in alls ==> a.OKAt(data, blocked)
    }

    ghost predicate AllsLawful()
      reads this`alls, alls`red
    {
      Distinct(alls) && forall a :: a in alls ==> Lawful(a.red)
    }

    ghost function AllUpdatesOf(gs: seq<GroupAll<T, P>>): (us: seq<Listener<T, P>>)
      ensures |us| == |gs| && forall i :: 0 <= i < |gs| ==> us[i] == AllOf(gs[i])
    {
      seq(|gs|, i requires 0 <= i < |gs| => AllOf(gs[i]))
    }

    /** The listeners are, in some order, the groups' updates and those of the group-alls. */
    ghost predicate InStep(listeners: seq<Listener<T, P>>, us: seq<Listener<T, P>>)
      reads this`alls
    {
      multiset(listeners) == multiset(us) + multiset(AllUpdatesOf(alls))
    }

    /** The filter listeners are, in some order, the groups' current update functions and those of the group-alls. */
    ghost predicate FilterListenersOK()
      reads this`filterListeners, this`groups, this`alls, this`updates, groups`update, groups`bins
    {
      && InStep(filterListeners, updates)
      && |updates| == |groups|
      && forall i :: 0 <= i < |groups| ==> updates[i] == groups[i].update == groups[i].Updater()
    }

    ghost function PostAddsOf(ds: seq<Dimension<T, P>>): (ls: seq<DataListener<T, P>>)
      ensures |ls| == |ds| && forall i :: 0 <= i < |ds| ==> ls[i] == PostAddOf(ds[i])
    {
      seq(|ds|, i requires 0 <= i < |ds| => PostAddOf(ds[i]))
    }

    ghost function AllAddsOf(gs: seq<GroupAll<T, P>>): (ls: seq<DataListener<T, P>>)
      ensures |ls| == |gs| && forall i :: 0 <= i < |gs| ==> ls[i] == AddOf(gs[i])
    {
      seq(|gs|, i requires 0 <= i < |gs| => AddOf(gs[i]))
    }

    /** Every dimension's preAdd comes before any other data listener, the newest dimension's first. */
    ghost predicate DataListenersOK()
      reads this`dataListeners, this`dims, this`alls
    {
      && |dims| <= |dataListeners|
      && (forall i :: 0 <= i < |dims| ==> dataListeners[i] == PreAddOf(dims[|dims| - 1 - i]))
      && multiset(dataListeners[|dims|..]) == multiset(PostAddsOf(dims)) + multiset(AllAddsOf(alls))
    }

    /** The group-alls are claimed to be right only as long as there is no 32nd dimension. */
    ghost predicate Valid()
      reads this, filters, dims, groups, alls
    {
      && Shape() && DimsOK() && GroupsPlaced() && GroupsAt(data, filters.blocked) && IndexListenersOK()
      && AllsLawful() && (|dims| < 32 ==> AllsAt(data, filters.blocked))
      && FilterListenersOK() && DataListenersOK()
    }

    constructor (nil: P, counter: Reducer<T, P>, natural: P -> real)
      requires Lawful(counter)
      ensures Valid() && data == [] && dims == [] && groups == [] && alls == []
      ensures fresh(filters) && this.counter == counter && this.natural == natural
    {
      this.nil, this.counter, this.natural := nil, counter, natural;
      data, m, filterListeners, dataListeners := [], 0, [], [];
      dims, groups, alls, updates := [], [], [], [];
      filters := new FilterBits();
    }

    /** Every listener is the null function or the current one of a known group, and no other than the
        null function is registered twice. */
    lemma FilterListenerFacts()
      requires FilterListenersOK() && Distinct(groups) && Distinct(alls)
      ensures forall l :: l in filterListeners ==>
        && (l.ManyOf? || l.OneOf? ==> l.g in groups && l.g.update == l)
        && (l.AllOf? ==> l.a in alls)
      ensures forall g :: g in groups ==> g.update in filterListeners
      ensures forall a :: a in alls ==> AllOf(a) in filterListeners
      ensures forall s, t :: 0 <= s < t < |filterListeners| && !filterListeners[s].NullListener? ==>
        filterListeners[s] != filterListeners[t]
    {
      var us, vs := updates, AllUpdatesOf(alls);
      forall l | l in filterListeners
        ensures l.ManyOf? || l.OneOf? ==> l.g in groups && l.g.update == l
        ensures l.AllOf? ==> l.a in alls
      {
        assert l in multiset(filterListeners);
        assert l in us || l in vs;
      }
      forall g | g in groups ensures g.update in filterListeners {
        var i :| 0 <= i < |groups| && groups[i] == g;
        assert us[i] in multiset(us);
        assert us[i] in multiset(filterListeners);
      }
      forall a | a in alls ensures AllOf(a) in filterListeners {
        var i :| 0 <= i < |alls| && alls[i] == a;
        assert vs[i] in multiset(vs);
        assert vs[i] in multiset(filterListeners);
      }
      forall s, t | 0 <= s < t < |filterListeners| && !filterListeners[s].NullListener?
        ensures filterListeners[s] != filterListeners[t] {
        var x := filterListeners[s];
        TwiceInMultiset(filterListeners, s, t);
        AtMostOnce(us, x);
        AtMostOnce(vs, x);
        if x.AllOf? { assert x !in us; } else { assert x !in vs; }
      }
    }

    /** What the filter listeners have done once the first t of them have been called. */
    ghost predicate GroupsNotified(t: nat, b0: seq<set<nat>>)
      requires t <= |filterListeners|
      reads this, filters, groups
    {
      forall g :: g in groups ==>
        && g.OKAt(data, if g.update in filterListeners[..t] then filters.blocked else b0)
        && g.update == g.Updater()
    }

    ghost predicate AllsNotified(t: nat, b0: seq<set<nat>>)
      requires t <= |filterListeners|
      reads this, filters, alls
    {
      forall a :: a in alls && |dims| < 32 ==>
        a.OKAt(data, if AllOf(a) in filterListeners[..t] then filters.blocked else b0)
    }

    /** What the loop over the filter listeners relies on. */
    ghost predicate ListenersReady(e: nat, added: seq<nat>, removed: seq<nat>, b0: seq<set<nat>>)
      reads this, filters, groups, alls
    {
      && filters.Valid() && |filters.blocked| == |data| && e < |dims| <= 32
      && IsChange(b0, filters.blocked, e, added, removed)
      && (forall l :: l in filterListeners ==>
           && (l.ManyOf? || l.OneOf? ==> l.g in groups && l.g.update == l)
           && (l.AllOf? ==> l.a in alls))
      && (forall s, t :: 0 <= s < t < |filterListeners| && !filterListeners[s].NullListener? ==>
        filterListeners[s] != filterListeners[t])
      && (forall g :: g in groups ==> g.dim.one < |dims|)
      && (forall a :: a in alls ==> Lawful(a.red))
    }

    /** A group's listener takes its turn. */
    method NotifyGroup(t: nat, g: Group<T, P>, e: nat, added: seq<nat>, removed: seq<nat>, ghost b0: seq<set<nat>>)
      requires t < |filterListeners| && (filterListeners[t] == ManyOf(g) || filterListeners[t] == OneOf(g))
      requires ListenersReady(e, added, removed, b0) && GroupsNotified(t, b0)
      modifies g`bins
      ensures GroupsNotified(t + 1, b0)
    {
      hide IsChange, Group.OKAt;
      assert filterListeners[t] in filterListeners;
      assert g.update !in filterListeners[..t];
      assert filterListeners[..t + 1] == filterListeners[..t] + [filterListeners[t]];
      g.Adjust(e, added, removed, data, filters, b0);
    }

    /** A group-all's listener takes its turn. */
    method NotifyAll(t: nat, a: GroupAll<T, P>, e: nat, added: seq<nat>, removed: seq<nat>, ghost b0: seq<set<nat>>)
      requires t < |filterListeners| && filterListeners[t] == AllOf(a)
      requires ListenersReady(e, added, removed, b0) && AllsNotified(t, b0)
      modifies a`reduceValue
      ensures AllsNotified(t + 1, b0)
    {
      hide IsChange;
      assert filterListeners[t] in filterListeners;
      assert AllOf(a) !in filterListeners[..t];
      assert filterListeners[..t + 1] == filterListeners[..t] + [filterListeners[t]];
      a.Adjust(e, added, removed, data, filters, b0);
    }

    /** A listener's turn changes nothing for the others. */
    lemma TurnPassed(t: nat, b0: seq<set<nat>>)
      requires t < |filterListeners|
      ensures (forall g :: g in groups ==> g.update != filterListeners[t]) && GroupsNotified(t, b0) ==>
        GroupsNotified(t + 1, b0)
      ensures (forall a :: a in alls ==> AllOf(a) != filterListeners[t]) && AllsNotified(t, b0) ==>
        AllsNotified(t + 1, b0)
    {
      hide Group.OKAt, GroupAll.OKAt;
      assert filterListeners[..t + 1] == filterListeners[..t] + [filterListeners[t]];
    }

    /** One turn of the loop over `filterListeners`. */
    method NotifyTurn(t: nat, e: nat, added: seq<nat>, removed: seq<nat>, ghost b0: seq<set<nat>>)
      requires t < |filterListeners|
      requires ListenersReady(e, added, removed, b0) && GroupsNotified(t, b0) && AllsNotified(t, b0)
      modifies groups`bins, alls`reduceValue
      ensures GroupsNotified(t + 1, b0) && AllsNotified(t + 1, b0)
    {
      hide IsChange, Group.OKAt, GroupAll.OKAt;
      TurnPassed(t, b0);
      ChangeLength(b0, filters.blocked, e, added, removed);
      assert filterListeners[t] in filterListeners;
      match filterListeners[t]
      case NullListener => NullPassed(t, b0);
      case ManyOf(g) => NotifyGroup(t, g, e, added, removed, b0);
      case OneOf(g) => NotifyGroup(t, g, e, added, removed, b0);
      case AllOf(a) => NotifyAll(t, a, e, added, removed, b0);
    }

    /** The null function suits the groups without bins: their values cannot be wrong. */
    lemma NullPassed(t: nat, b0: seq<set<nat>>)
      requires t < |filterListeners| && filterListeners[t] == NullListener
      requires GroupsNotified(t, b0) && |b0| == |filters.blocked|
      ensures GroupsNotified(t + 1, b0)
    {
      assert filterListeners[..t + 1] == filterListeners[..t] + [filterListeners[t]];
      forall g | g in groups
        ensures g.OKAt(data, if g.update in filterListeners[..t + 1] then filters.blocked else b0) {
        if g.update == NullListener {
          g.NoBins(data, b0);
          g.NoBins(data, filters.blocked);
        }
      }
    }

    /** The loop over `filterListeners` at the end of `filterIndex`. */
    method NotifyFilter(e: nat, added: seq<nat>, removed: seq<nat>, ghost b0: seq<set<nat>>)
      requires filters.Valid() && |filters.blocked| == |data| && e < |dims| <= 32
      requires IsChange(b0, filters.blocked, e, added, removed)
      requires GroupsPlaced() && GroupsAt(data, b0) && AllsLawful() && (|dims| < 32 ==> AllsAt(data, b0))
        && FilterListenersOK()
      modifies groups`bins, alls`reduceValue
      ensures GroupsAt(data, filters.blocked) && (|dims| < 32 ==> AllsAt(data, filters.blocked)) && FilterListenersOK()
    {
      hide IsChange, Group.OKAt, GroupAll.OKAt, Lawful, Monotone;
      FilterListenerFacts();
      for t := 0 to |filterListeners|
        invariant ListenersReady(e, added, removed, b0)
        invariant GroupsNotified(t, b0) && AllsNotified(t, b0)
      {
        NotifyTurn(t, e, added, removed, b0);
      }
      assert filterListeners[..|filterListeners|] == filterListeners;
    }

    /** Filters a dimension: `filterExact`, `filterRange` and `filterAll`, unless the new
        filter clashes with the old. */
    method Apply(dim: Dimension<T, P>, filter: Filter)
      requires Valid() && dim in dims && !dim.Clashes(filter, data)
      modifies dim`refilter, dim`lo0, dim`hi0, filters, groups`bins, alls`reduceValue
      ensures Valid() && dim.refilter == filter
    {
      hide IsChange, Group.OKAt, GroupAll.OKAt, Dimension.OKAt, Dimension.BitsAt, Dimension.Clashes;
      hide FilterListenersOK, DataListenersOK, IndexListenersOK, AllsAt, AllsLawful, GroupsAt;
      ghost var b0 := filters.blocked;
      var added, removed := dim.Move(filter, filters, data);
      OthersUnmoved(dim.one, added, removed, b0);
      NotifyFilter(dim.one, added, removed, b0);
    }

    /** A change of dimension e's bits leaves the other dimensions' bits and the shape of the bitset alone. */
    lemma OthersUnmoved(e: nat, added: seq<nat>, removed: seq<nat>, b0: seq<set<nat>>)
      requires IsChange(b0, filters.blocked, e, added, removed) && |data| <= |b0|
      ensures |b0| == |filters.blocked|
      ensures forall d: Dimension<T, P> :: d in dims && d.one != e && d.BitsAt(data, b0) ==>
        d.BitsAt(data, filters.blocked)
      ensures e < m && (forall r, x :: 0 <= r < |b0| && x in b0[r] ==> x < m) ==>
        forall r, x :: 0 <= r < |b0| && x in filters.blocked[r] ==> x < m
    {
      forall r | 0 <= r < |b0| ensures forall x :: x != e ==> (x in b0[r] <==> x in filters.blocked[r]) {
        if r !in added && r !in removed { assert filters.blocked[r] == b0[r]; }
      }
    }

    /** Replacing one registered occurrence of the group's old update function by the new one keeps the listeners
        in step, whichever occurrence it is. */
    lemma ListenerReplaced(before: seq<Listener<T, P>>, us: seq<Listener<T, P>>, i: nat, j: nat, x: Listener<T, P>)
      requires i < |us| && j < |before| && before[j] == us[i] && InStep(before, us)
      ensures InStep(before[j := x], us[i := x])
    {
      MultisetUpdate(us, i, x);
      MultisetUpdate(before, j, x);
      assert us[i] in multiset(us);
    }

    lemma Registered(i: nat)
      requires i < |updates| && InStep(filterListeners, updates)
      ensures updates[i] in filterListeners
    {
      assert updates[i] in multiset(updates);
      assert updates[i] in multiset(filterListeners);
    }

    /** Registers the update function for the group's new number of bins in the place of the old one. */
    method Reregister(g: Group<T, P>, ghost i: nat)
      requires i < |groups| == |updates| && groups[i] == g && Distinct(groups) && updates[i] == g.update
      requires InStep(filterListeners, updates)
      requires forall h :: 0 <= h < |groups| && h != i ==> updates[h] == groups[h].update == groups[h].Updater()
      modifies g`update, this`filterListeners, this`updates
      ensures FilterListenersOK()
    {
      hide Group.Updater, InStep;
      Registered(i);
      var j := IndexOf(filterListeners, g.update);
      g.update := g.Updater();
      ListenerReplaced(filterListeners, updates, i, j, g.update);
      filterListeners, updates := filterListeners[j := g.update], updates[i := g.update];
    }

    /** A group's `add`: takes in the new records and registers the update function for its new number of bins. */
    method GroupAdd(g: Group<T, P>, newValues: seq<real>, newIndex: seq<nat>, n0: nat)
      requires n0 <= |data| <= MAX_LENGTH && Monotone(g.key)
      requires filters.Valid() && |filters.blocked| == |data| && g.dim.one < 32
      requires g.OKAt(data[..n0], filters.blocked[..n0])
      requires Ranked(g.dim.ValuesOf(data[n0..]), newValues, newIndex)
      requires g in groups && Distinct(groups) && FilterListenersOK()
      modifies g`bins, g`groupIndex, g`groupWidth, g`update, this`filterListeners, this`updates
      ensures g.OKAt(data, filters.blocked) && FilterListenersOK()
    {
      hide Ranked, Monotone, Group.OKAt;
      ghost var i :| 0 <= i < |groups| && groups[i] == g;
      g.Regroup(data, newValues, newIndex, n0, nil, filters);
      Reregister(g, i);
    }

    /** The bitset has a word per record, and the old records' words are as they were. */
    ghost predicate BitsetReady(n0: nat, b0: seq<set<nat>>)
      reads this`data, this`m, this`dims, filters
    {
      && filters.Valid() && m == |dims| <= 32 && m <= filters.width
      && |filters.blocked| == |data| <= MAX_LENGTH && n0 <= |data| && filters.blocked[..n0] == b0
      && (forall r, e :: 0 <= r < |data| && e in filters.blocked[r] ==> e < m)
      && (forall i :: 0 <= i < |dims| ==> dims[i].one == i)
    }

    lemma BitsetStillReady(before: seq<set<nat>>, after: seq<set<nat>>, i: nat, k: nat)
      requires OnlyBit(before, after, i) && i < k && forall r, e :: 0 <= r < |before| && e in before[r] ==> e < k
      ensures |after| == |before| && forall r, e :: 0 <= r < |before| && e in after[r] ==> e < k
    {
    }

    /** The dimensions from number k on have taken in the records from n0 on, the others have not. */
    ghost predicate ReadyFrom(k: nat, n0: nat)
      reads this`data, this`dims, filters, dims
    {
      n0 <= |data| <= |filters.blocked| && forall j :: 0 <= j < |dims| ==>
        if j >= k then dims[j].Ready(data, n0, filters.blocked) else dims[j].Waiting(data, n0, filters.blocked)
    }

    /** Dimension i takes in the new records; the others' bits stay as they are. */
    method PreAddTurn(ghost i: nat, dim: Dimension<T, P>, newData: seq<T>, n0: nat, ghost b0: seq<set<nat>>)
      requires i < |dims| && dims[i] == dim && BitsetReady(n0, b0) && data[n0..] == newData
      requires ReadyFrom(i + 1, n0)
      modifies dim, filters
      ensures BitsetReady(n0, b0) && ReadyFrom(i, n0)
      ensures dim.refilter == old(dim.refilter) && dim.indexListeners == old(dim.indexListeners)
    {
      hide Ranked, Dimension.OKAt, Dimension.BitsAt, OnlyBit, Dimension.Waiting, Dimension.Ready;
      ghost var before := filters.blocked;
      dim.TakeIn(data, newData, n0, filters);
      BitsetStillReady(before, filters.blocked, i, m);
      forall j | 0 <= j < |dims| && j != i
        ensures if j >= i then dims[j].Ready(data, n0, filters.blocked) else dims[j].Waiting(data, n0, filters.blocked)
      {
        dims[j].OtherBit(data, n0, before, filters.blocked, i);
      }
    }

    /** Of the groups of a dimension, the first u have taken in the records from n0 on. */
    ghost predicate GroupsTaken(gs: seq<Group<T, P>>, u: nat, n0: nat)
      requires u <= |gs| && n0 <= |data|
      reads this`data, filters, gs
    {
      |filters.blocked| == |data| && forall s :: 0 <= s < |gs| ==>
        if s < u then gs[s].OKAt(data, filters.blocked) else gs[s].OKAt(data[..n0], filters.blocked[..n0])
    }

    /** A dimension's `postAdd`: its groups take in the new records in the order of its values. */
    method PostAdd(dim: Dimension<T, P>, n0: nat)
      requires n0 <= |data| <= MAX_LENGTH && filters.Valid() && dim.one < 32
      requires Ranked(dim.ValuesOf(data[n0..]), dim.newValues, dim.newIndex)
      requires Distinct(dim.indexListeners) && GroupsTaken(dim.indexListeners, 0, n0)
      requires forall g :: g in dim.indexListeners ==> g in groups && g.dim == dim && Monotone(g.key)
      requires Distinct(groups) && FilterListenersOK()
      modifies dim`newValues, dim`newIndex, this`filterListeners, this`updates
      modifies dim.indexListeners`bins, dim.indexListeners`groupIndex, dim.indexListeners`groupWidth,
        dim.indexListeners`update
      ensures GroupsTaken(dim.indexListeners, |dim.indexListeners|, n0) && FilterListenersOK()
    {
      hide Ranked, Monotone, Group.OKAt, FilterListenersOK;
      for u := 0 to |dim.indexListeners|
        invariant GroupsTaken(dim.indexListeners, u, n0) && FilterListenersOK()
        invariant dim.newValues == old(dim.newValues) && dim.newIndex == old(dim.newIndex)
      {
        var g := dim.indexListeners[u];
        GroupAdd(g, dim.newValues, dim.newIndex, n0);
      }
      dim.newValues, dim.newIndex := [], [];
    }

    /** What the data listeners after the preAdds have done once the first t of them have been called. */
    ghost predicate DimsTaken(t: nat, n0: nat)
      requires |dims| + t <= |dataListeners| && n0 <= |data|
      reads this`data, this`dims, this`dataListeners, filters, dims
    {
      |filters.blocked| == |data| && forall i :: 0 <= i < |dims| ==>
        && dims[i].OKAt(data) && dims[i].BitsAt(data, filters.blocked)
        && (PostAddOf(dims[i]) in dataListeners[|dims|..|dims| + t]
            || Ranked(dims[i].ValuesOf(data[n0..]), dims[i].newValues, dims[i].newIndex))
    }

    ghost predicate AllGroupsTaken(t: nat, n0: nat)
      requires |dims| + t <= |dataListeners| && n0 <= |data|
      reads this`data, this`dims, this`groups, this`dataListeners, filters, groups
    {
      |filters.blocked| == |data| && forall g :: g in groups ==>
        if PostAddOf(g.dim) in dataListeners[|dims|..|dims| + t] then g.OKAt(data, filters.blocked)
        else g.OKAt(data[..n0], filters.blocked[..n0])
    }

    ghost predicate AllsTaken(t: nat, n0: nat)
      requires |dims| + t <= |dataListeners| && n0 <= |data|
      reads this`data, this`dims, this`alls, this`dataListeners, filters, alls
    {
      |filters.blocked| == |data| && forall a :: a in alls && |dims| < 32 ==>
        if AddOf(a) in dataListeners[|dims|..|dims| + t] then a.OKAt(data, filters.blocked)
        else a.OKAt(data[..n0], filters.blocked[..n0])
    }

    /** What every turn of the loop over `dataListeners` relies on. */
    ghost predicate AddReady(n0: nat)
      reads this`data, this`dims, this`groups, this`alls, this`dataListeners, filters, dims`indexListeners
    {
      && n0 <= |data| <= MAX_LENGTH && filters.Valid() && |filters.blocked| == |data| && |dims| <= 32
        && |dims| <= |dataListeners|
      && (forall i :: 0 <= i < |dims| ==> dims[i].one == i)
      && Distinct(alls) && GroupsPlaced() && IndexListenersOK()
      && (forall l :: l in dataListeners[|dims|..] ==> (l.PostAddOf? && l.dim in dims) || (l.AddOf? && l.a in alls))
      && (forall s, t :: |dims| <= s < t < |dataListeners| ==> dataListeners[s] != dataListeners[t])
    }

    /** What a dimension's postAdd can rely on when its turn comes. */
    lemma PostAddReady(t: nat, dim: Dimension<T, P>, n0: nat)
      requires AddReady(n0) && |dims| + t < |dataListeners| && dataListeners[|dims| + t] == PostAddOf(dim)
        && dim in dims
      requires DimsTaken(t, n0) && AllGroupsTaken(t, n0)
      ensures dim.one < 32 && Distinct(dim.indexListeners) && Distinct(groups)
      ensures Ranked(dim.ValuesOf(data[n0..]), dim.newValues, dim.newIndex) && GroupsTaken(dim.indexListeners, 0, n0)
      ensures forall g :: g in dim.indexListeners ==> g in groups && g.dim == dim && Monotone(g.key)
      ensures forall g :: g in groups && g.dim == dim ==> g in dim.indexListeners
    {
      hide Ranked, Monotone, Group.OKAt, Dimension.OKAt, Dimension.BitsAt;
      assert PostAddOf(dim) !in dataListeners[|dims|..|dims| + t];
      assert dims[dim.one] == dim;
    }

    /** A dimension's postAdd takes its turn. */
    method PostAddTurn(t: nat, dim: Dimension<T, P>, n0: nat)
      requires n0 <= |data| <= MAX_LENGTH && filters.Valid()
      requires AddReady(n0) && |dims| + t < |dataListeners| && dataListeners[|dims| + t] == PostAddOf(dim)
        && dim in dims
      requires DimsTaken(t, n0) && AllGroupsTaken(t, n0) && FilterListenersOK()
      modifies dim`newValues, dim`newIndex, this`filterListeners, this`updates
      modifies dim.indexListeners`bins, dim.indexListeners`groupIndex, dim.indexListeners`groupWidth,
        dim.indexListeners`update
      ensures DimsTaken(t + 1, n0) && AllGroupsTaken(t + 1, n0) && FilterListenersOK()
    {
      hide Ranked, Monotone, Group.OKAt, FilterListenersOK, Dimension.OKAt, Dimension.BitsAt, AddReady;
      PostAddReady(t, dim, n0);
      assert dataListeners[|dims|..|dims| + t + 1] == dataListeners[|dims|..|dims| + t] + [PostAddOf(dim)];
      PostAdd(dim, n0);
    }

    /** A group-all's add takes its turn. */
    method AllAddTurn(t: nat, a: GroupAll<T, P>, n0: nat)
      requires AddReady(n0) && |dims| + t < |dataListeners| && dataListeners[|dims| + t] == AddOf(a) && a in alls
      requires AllsTaken(t, n0)
      modifies a`reduceValue
      ensures AllsTaken(t + 1, n0)
    {
      ghost var l, p := AddOf(a), |dims|;
      assert dataListeners[p..p + t + 1] == dataListeners[p..p + t] + [l];
      assert l !in dataListeners[p..p + t];
      a.Extend(data, n0, filters);
    }

    /** A turn changes nothing for the kinds of listener that are not called. */
    lemma AddTurnPassed(t: nat, n0: nat)
      requires |dims| + t < |dataListeners| && n0 <= |data|
      ensures dataListeners[|dims| + t].AddOf? && DimsTaken(t, n0) ==> DimsTaken(t + 1, n0)
      ensures dataListeners[|dims| + t].AddOf? && AllGroupsTaken(t, n0) ==> AllGroupsTaken(t + 1, n0)
      ensures dataListeners[|dims| + t].PostAddOf? && AllsTaken(t, n0) ==> AllsTaken(t + 1, n0)
    {
      hide Ranked, Group.OKAt, GroupAll.OKAt, Dimension.OKAt, Dimension.BitsAt;
      var p := |dims|;
      assert dataListeners[p..p + t + 1] == dataListeners[p..p + t] + [dataListeners[p + t]];
    }

    /** Whose turn it is. */
    lemma TurnOf(t: nat, n0: nat)
      requires AddReady(n0) && |dims| + t < |dataListeners|
      ensures n0 <= |data| <= MAX_LENGTH && filters.Valid()
      ensures var l := dataListeners[|dims| + t];
              && (l.PostAddOf? || l.AddOf?)
              && (l.PostAddOf? ==> l.dim in dims && forall u :: 0 <= u < |l.dim.indexListeners| ==>
                l.dim.indexListeners[u] in groups)
              && (l.AddOf? ==> l.a in alls)
    {
      hide Monotone;
      var l := dataListeners[|dims| + t];
      assert dataListeners[|dims|..][t] == l;
      assert l in dataListeners[|dims|..];
      if l.PostAddOf? {
        var dim := l.dim;
        assert dims[dim.one] == dim;
        forall u | 0 <= u < |dim.indexListeners| ensures dim.indexListeners[u] in groups {
          assert dim.indexListeners[u] in dim.indexListeners;
        }
      }
    }

    /** One turn of the loop over `dataListeners` after the preAdds. */
    method AddTurn(t: nat, l: DataListener<T, P>, n0: nat)
      requires n0 <= |data| && AddReady(n0) && |dims| + t < |dataListeners| && l == dataListeners[|dims| + t]
      requires DimsTaken(t, n0) && AllGroupsTaken(t, n0) && AllsTaken(t, n0) && FilterListenersOK()
      modifies dims`newValues, dims`newIndex, this`filterListeners, this`updates
      modifies groups`bins, groups`groupIndex, groups`groupWidth, groups`update, alls`reduceValue
      ensures AddReady(n0) && DimsTaken(t + 1, n0) && AllGroupsTaken(t + 1, n0) && AllsTaken(t + 1, n0)
        && FilterListenersOK()
    {
      hide AddReady, FilterListenersOK, DimsTaken, AllGroupsTaken, AllsTaken;
      AddTurnPassed(t, n0);
      TurnOf(t, n0);
      match l
      case PostAddOf(dim) =>
        PostAddTurn(t, dim, n0);
      case AddOf(a) => AllAddTurn(t, a, n0);
    }

    /** After the preAdds every dimension's postAdd and every group-all's add is registered once. */
    ghost predicate AddListeners()
      reads this`dataListeners, this`dims, this`alls
    {
      && |dims| <= |dataListeners|
      && (forall l :: l in dataListeners[|dims|..] ==> (l.PostAddOf? && l.dim in dims) || (l.AddOf? && l.a in alls))
      && (forall d :: d in dims ==> PostAddOf(d) in dataListeners[|dims|..])
      && (forall a :: a in alls ==> AddOf(a) in dataListeners[|dims|..])
      && (forall s, t :: |dims| <= s < t < |dataListeners| ==> dataListeners[s] != dataListeners[t])
    }

    lemma DataListenerFacts()
      requires DataListenersOK() && AllsLawful() && forall i :: 0 <= i < |dims| ==> dims[i].one == i
      ensures AddListeners()
    {
      hide Lawful;
      var us, vs, rest := PostAddsOf(dims), AllAddsOf(alls), dataListeners[|dims|..];
      MultisetMembers(rest, us, vs);
      DistinctParts(rest, us, vs);
      forall d | d in dims ensures PostAddOf(d) in us {
        var i :| 0 <= i < |dims| && dims[i] == d;
        assert us[i] == PostAddOf(d);
      }
      forall a | a in alls ensures AddOf(a) in vs {
        var i :| 0 <= i < |alls| && alls[i] == a;
        assert vs[i] == AddOf(a);
      }
      forall s, t | |dims| <= s < t < |dataListeners| ensures dataListeners[s] != dataListeners[t] {
        assert rest[s - |dims|] == dataListeners[s] && rest[t - |dims|] == dataListeners[t];
      }
    }

    /** Lengthening the bitset leaves every dimension waiting for the records from n0 on. */
    method StartAdd(newData: seq<T>) returns (n0: nat)
      requires Valid() && |data| + |newData| <= MAX_LENGTH
      modifies this`data, filters
      ensures data == old(data) + newData && n0 == old(|data|) && data[..n0] == old(data) && data[n0..] == newData
      ensures BitsetReady(n0, old(filters.blocked)) && ReadyFrom(|dims|, n0)
    {
      hide Ranked, Dimension.OKAt, IndexListenersOK, FilterListenersOK, DataListenersOK, GroupsAt, AllsAt, AllsLawful;
      n0 := |data|;
      ghost var b0 := filters.blocked;
      data := data + newData;
      assert data[..n0] == old(data) && data[n0..] == newData;
      filters.Lengthen(|data|);
      assert filters.blocked[..n0] == b0;
      forall r, e | 0 <= r < |data| && e in filters.blocked[r] ensures e < m {
        if r < n0 { assert filters.blocked[r] == b0[r]; }
      }
      forall j | 0 <= j < |dims| ensures dims[j].Waiting(data, n0, filters.blocked) {
        assert forall r :: 0 <= r < n0 ==> filters.blocked[r] == b0[r];
      }
    }

    /** The first part of the loop over `dataListeners`: every dimension takes in the new records. */
    method PreAdds(newData: seq<T>, n0: nat, ghost b0: seq<set<nat>>)
      requires BitsetReady(n0, b0) && data[n0..] == newData && ReadyFrom(|dims|, n0) && DataListenersOK()
      modifies dims, filters
      ensures BitsetReady(n0, b0) && ReadyFrom(0, n0)
      ensures forall d :: d in old(dims) ==> d.refilter == old(d.refilter)
      ensures old(IndexListenersOK()) ==> IndexListenersOK()
    {
      hide Ranked, Dimension.OKAt, Dimension.BitsAt, Dimension.Waiting, Dimension.Ready;
      for t := 0 to m
        invariant BitsetReady(n0, b0) && ReadyFrom(|dims| - t, n0)
        invariant forall d :: d in dims ==> d.refilter == old(d.refilter) && d.indexListeners == old(d.indexListeners)
      {
        ghost var i := |dims| - 1 - t;
        assert dataListeners[t] == PreAddOf(dims[i]);
        PreAddTurn(i, dataListeners[t].dim, newData, n0, b0);
      }
    }

    /** The rest of the loop: every group and group-all takes them in. */
    method PostAdds(n0: nat)
      requires n0 <= |data| && AddReady(n0) && m == |dims| <= |dataListeners|
      requires DimsTaken(0, n0) && AllGroupsTaken(0, n0) && AllsTaken(0, n0) && FilterListenersOK()
      modifies dims`newValues, dims`newIndex, this`filterListeners, this`updates
      modifies groups`bins, groups`groupIndex, groups`groupWidth, groups`update, alls`reduceValue
      ensures FilterListenersOK()
      ensures var t := |dataListeners| - |dims|; DimsTaken(t, n0) && AllGroupsTaken(t, n0) && AllsTaken(t, n0)
    {
      hide Ranked, Group.OKAt, GroupAll.OKAt, Dimension.OKAt, Dimension.BitsAt, FilterListenersOK, Monotone;
      hide DimsTaken, AllGroupsTaken, AllsTaken, AddReady;
      for t := m to |dataListeners|
        invariant AddReady(n0)
        invariant DimsTaken(t - m, n0) && AllGroupsTaken(t - m, n0) && AllsTaken(t - m, n0) && FilterListenersOK()
      {
        AddTurn(t - m, dataListeners[t], n0);
      }
    }

    /** Adds records. */
    method Add(newData: seq<T>)
      requires Valid() && |data| + |newData| <= MAX_LENGTH
      modifies this`data, this`filterListeners, this`updates, filters, dims
      modifies groups`bins, groups`groupIndex, groups`groupWidth, groups`update, alls`reduceValue
      ensures Valid() && data == old(data) + newData
      ensures forall d :: d in old(dims) ==> d.refilter == old(d.refilter)
    {
      hide DimsOK, GroupsPlaced, GroupsAt, IndexListenersOK, AllsAt, AllsLawful, FilterListenersOK, DataListenersOK;
      if newData != [] {
        var n0 := StartAdd(newData);
        NotifyData(newData, n0, old(data), old(filters.blocked));
      }
    }

    /** The loop over `dataListeners`. */
    method NotifyData(newData: seq<T>, n0: nat, ghost oldData: seq<T>, ghost b0: seq<set<nat>>)
      requires BitsetReady(n0, b0) && ReadyFrom(|dims|, n0) && oldData == data[..n0] && data[n0..] == newData
      requires GroupsPlaced() && GroupsAt(oldData, b0) && AllsLawful() && (|dims| < 32 ==> AllsAt(oldData, b0))
      requires IndexListenersOK() && FilterListenersOK() && DataListenersOK()
      modifies this`filterListeners, this`updates, filters, dims
      modifies groups`bins, groups`groupIndex, groups`groupWidth, groups`update, alls`reduceValue
      ensures BitsetReady(n0, b0) && DimsOK() && GroupsAt(data, filters.blocked)
        && (|dims| < 32 ==> AllsAt(data, filters.blocked))
      ensures IndexListenersOK() && FilterListenersOK() && DataListenersOK()
      ensures forall d :: d in old(dims) ==> d.refilter == old(d.refilter)
    {
      hide FilterListenersOK, DataListenersOK, GroupsPlaced, GroupsAt, AllsAt, AllsLawful, IndexListenersOK;
      hide AddReady, DimsTaken, AllGroupsTaken, AllsTaken, DimsOK, AddListeners, ReadyFrom;
      DataListenerFacts();
      PreAdds(newData, n0, b0);
      PostAddsReady(n0, oldData, b0);
      PostAdds(n0);
      AllTaken(n0);
    }

    lemma PostAddsReady(n0: nat, oldData: seq<T>, b0: seq<set<nat>>)
      requires BitsetReady(n0, b0) && ReadyFrom(0, n0) && oldData == data[..n0]
      requires GroupsPlaced() && GroupsAt(oldData, b0) && AllsLawful() && (|dims| < 32 ==> AllsAt(oldData, b0))
      requires IndexListenersOK() && AddListeners()
      ensures |dims| <= |dataListeners|
      ensures AddReady(n0) && DimsTaken(0, n0) && AllGroupsTaken(0, n0) && AllsTaken(0, n0)
    {
      hide Ranked, Group.OKAt, GroupAll.OKAt, Dimension.OKAt, Dimension.BitsAt, Monotone, Lawful, IndexListenersOK;
    }

    lemma AllTaken(n0: nat)
      requires AddReady(n0) && AddListeners()
      requires var t := |dataListeners| - |dims|;
        t >= 0 && DimsTaken(t, n0) && AllGroupsTaken(t, n0) && AllsTaken(t, n0)
      ensures DimsOK() && GroupsAt(data, filters.blocked) && (|dims| < 32 ==> AllsAt(data, filters.blocked))
    {
      hide Ranked, Group.OKAt, GroupAll.OKAt, Dimension.OKAt, Dimension.BitsAt, Monotone, Lawful;
      assert dataListeners[|dims|..|dims| + (|dataListeners| - |dims|)] == dataListeners[|dims|..];
    }

    /** A dimension that lets everything pass changes no bits. */
    lemma NothingMarked(before: seq<set<nat>>, after: seq<set<nat>>, d: nat)
      requires OnlyBit(before, after, d)
      requires forall r :: 0 <= r < |before| ==> d !in before[r] && d !in after[r]
      ensures before == after
    {
    }

    /** A new dimension's preAdd goes before, and its postAdd after, all other data listeners. */
    lemma DimensionListed(dim: Dimension<T, P>, ds: seq<Dimension<T, P>>, before: seq<DataListener<T, P>>)
      requires dims == ds + [dim] && dataListeners == [PreAddOf(dim)] + before + [PostAddOf(dim)] && |ds| <= |before|
      requires forall i :: 0 <= i < |ds| ==> before[i] == PreAddOf(ds[|ds| - 1 - i])
      requires multiset(before[|ds|..]) == multiset(PostAddsOf(ds)) + multiset(AllAddsOf(alls))
      ensures DataListenersOK()
    {
      assert dataListeners[|dims|..] == before[|ds|..] + [PostAddOf(dim)];
      assert PostAddsOf(dims) == PostAddsOf(ds) + [PostAddOf(dim)];
      forall i | 0 <= i < |dims| ensures dataListeners[i] == PreAddOf(dims[|dims| - 1 - i]) {
        if i > 0 { assert dataListeners[i] == before[i - 1]; }
      }
    }

    /** Registers a new dimension. */
    method RegisterDimension(dim: Dimension<T, P>)
      requires DataListenersOK() && IndexListenersOK() && dim.indexListeners == []
      requires forall g :: g in groups ==> g.dim != dim
      modifies this`dataListeners, this`dims
      ensures dims == old(dims) + [dim] && DataListenersOK() && IndexListenersOK()
      ensures dataListeners == [PreAddOf(dim)] + old(dataListeners) + [PostAddOf(dim)]
    {
      ghost var ds, before := dims, dataListeners;
      dataListeners := [PreAddOf(dim)] + dataListeners + [PostAddOf(dim)];
      dims := dims + [dim];
      DimensionListed(dim, ds, before);
      hide DataListenersOK;
    }

    /** Widens the bitset if it has become too narrow, and takes the existing records into a new dimension. */
    method Incorporate(dim: Dimension<T, P>) returns (ok: bool)
      requires filters.Valid() && |filters.blocked| == |data| <= MAX_LENGTH && 1 <= m <= 33 && m <= filters.width + 1
        && dim.one == m - 1
      requires forall r, e :: 0 <= r < |data| && e in filters.blocked[r] ==> e < m - 1
      requires dim.refilter == All && dim.indexListeners == [] && dim.OKAt([])
      modifies dim, filters
      ensures dim.refilter == All && dim.indexListeners == []
      ensures ok <==> m <= 32
      ensures ok ==> dim.OKAt(data) && dim.BitsAt(data, filters.blocked)
      ensures filters.Valid() && (ok ==> m <= filters.width) && filters.blocked == old(filters.blocked)
      ensures !ok ==> filters.width == old(filters.width)
    {
      hide Ranked, OnlyBit;
      ghost var b0 := filters.blocked;
      WidthIsKnown();
      ok := true;
      if m > filters.width {
        ok := filters.Widen(2 * filters.width);
        if !ok {
          return;
        }
      }
      assert data[..0] == [] && data[0..] == data;
      dim.PreAdd(data, data, 0, filters);
      dim.newValues, dim.newIndex := [], [];
      NothingMarked(b0, filters.blocked, dim.one);
    }

    lemma WidthIsKnown()
      requires filters.Valid()
      ensures filters.width == 8 || filters.width == 16 || filters.width == 32
    {
    }

    /** Adds a dimension with its value accessor. The 33rd does not fit the widest bitset: then the source throws,
        with the dimension already registered: the next records to be added will meet it, though it has no bit. */
    method AddDimension(value: T -> real) returns (r: NewDimension<T, P>)
      requires Valid()
      modifies this`m, this`dataListeners, this`dims, filters
      ensures r.Made? <==> old(m) < 32
      ensures r.Made? ==> Valid() && fresh(r.dim) && dims == old(dims) + [r.dim]
      ensures r.Made? ==> r.dim.value == value && r.dim.refilter == All
      ensures r.InvalidArrayWidth? ==> |dims| == 33 && dims[..32] == old(dims) && m == 33
      ensures r.InvalidArrayWidth? ==> filters.width == old(filters.width) && filters.blocked == old(filters.blocked)
      ensures r.InvalidArrayWidth? ==>
        dataListeners == [PreAddOf(dims[32])] + old(dataListeners) + [PostAddOf(dims[32])]
    {
      hide Group.OKAt, GroupAll.OKAt, Dimension.OKAt, Dimension.BitsAt, Lawful, Monotone;
      hide FilterListenersOK, GroupsAt, AllsAt, AllsLawful, DataListenersOK, IndexListenersOK;
      var dim := new Dimension(m, value);
      m := m + 1;
      RegisterDimension(dim);
      var ok := Incorporate(dim);
      r := if ok then Made(dim) else InvalidArrayWidth;
    }

    lemma EmptyGroup(g: Group<T, P>)
      requires g.bins == [] && g.groupWidth == 8 && g.resetNeeded && Lawful(g.red)
      ensures g.OKAt([], [])
    {
    }

    /** Registers an empty group's null update function. */
    method RegisterUpdate(g: Group<T, P>)
      requires FilterListenersOK() && g !in groups && g.bins == [] && g.update == NullListener
      modifies this`filterListeners, this`updates, this`groups
      ensures groups == old(groups) + [g] && FilterListenersOK()
    {
      assert g.Updater() == NullListener;
      hide Group.Updater;
      filterListeners := filterListeners + [g.update];
      groups, updates := groups + [g], updates + [g.update];
    }

    /** Registers a group with its dimension. */
    method RegisterWithDimension(g: Group<T, P>, ghost gs: seq<Group<T, P>>)
      requires g.dim.one < |dims| && dims[g.dim.one] == g.dim && groups == gs + [g] && g !in gs
      requires forall i, j :: 0 <= i < j < |dims| ==> dims[i] != dims[j]
      requires forall i :: 0 <= i < |dims| ==> Distinct(dims[i].indexListeners)
      requires forall i, h :: 0 <= i < |dims| && h in dims[i].indexListeners ==> h in gs && h.dim == dims[i]
      requires forall i, h :: h in gs && 0 <= i < |dims| && h.dim == dims[i] ==> h in dims[i].indexListeners
      modifies g.dim`indexListeners
      ensures IndexListenersOK()
    {
      g.dim.indexListeners := g.dim.indexListeners + [g];
    }

    /** Makes an empty group and registers it. */
    method MakeGroup(dim: Dimension<T, P>, key: real -> real) returns (g: Group<T, P>)
      requires GroupsPlaced() && IndexListenersOK() && FilterListenersOK()
      requires dim.one < |dims| && dims[dim.one] == dim && (forall i :: 0 <= i < |dims| ==> dims[i].one == i)
      requires Monotone(key) && Lawful(counter)
      modifies this`filterListeners, this`updates, this`groups, dim`indexListeners
      ensures fresh(g) && g.dim == dim && g.key == key && g.red == counter && g.order == natural && g.OKAt([], [])
        && g.resetNeeded
      ensures groups == old(groups) + [g]
      ensures GroupsPlaced() && IndexListenersOK() && FilterListenersOK()
    {
      hide FilterListenersOK, Lawful, Monotone, Group.OKAt;
      g := new Group(dim, key, counter, natural);
      EmptyGroup(g);
      ghost var gs := groups;
      RegisterUpdate(g);
      RegisterWithDimension(g, gs);
    }

    /** Adds a group to a dimension, with its key function. */
    method AddGroup(dim: Dimension<T, P>, key: real -> real) returns (g: Group<T, P>)
      requires Valid() && dim in dims && Monotone(key)
      modifies this`filterListeners, this`updates, this`groups, dim`indexListeners
      ensures Valid() && fresh(g) && groups == old(groups) + [g]
      ensures g.dim == dim && g.key == key && g.red == counter && g.order == natural && g.resetNeeded
    {
      hide Group.OKAt, GroupAll.OKAt, Dimension.OKAt, Dimension.BitsAt, Ranked, Lawful, Monotone;
      hide FilterListenersOK, DataListenersOK, IndexListenersOK, AllsAt, AllsLawful;
      g := MakeGroup(dim, key);
      assert data[..0] == [] && filters.blocked[..0] == [] && data[0..] == data;
      dim.OrderOf(data);
      GroupAdd(g, dim.values, dim.index, 0);
    }

    lemma AllRegistered(before: seq<Listener<T, P>>, dataBefore: seq<DataListener<T, P>>, gs: seq<GroupAll<T, P>>,
        a: GroupAll<T, P>)
      requires alls == gs + [a] && filterListeners == before + [AllOf(a)] && dataListeners == dataBefore + [AddOf(a)]
      requires multiset(before) == multiset(updates) + multiset(AllUpdatesOf(gs))
      requires |dims| <= |dataBefore|
        && multiset(dataBefore[|dims|..]) == multiset(PostAddsOf(dims)) + multiset(AllAddsOf(gs))
      ensures multiset(filterListeners) == multiset(updates) + multiset(AllUpdatesOf(alls))
      ensures multiset(dataListeners[|dims|..]) == multiset(PostAddsOf(dims)) + multiset(AllAddsOf(alls))
    {
      assert AllUpdatesOf(alls) == AllUpdatesOf(gs) + [AllOf(a)];
      assert AllAddsOf(alls) == AllAddsOf(gs) + [AddOf(a)];
      assert dataListeners[|dims|..] == dataBefore[|dims|..] + [AddOf(a)];
    }

    method RegisterAll(a: GroupAll<T, P>)
      requires FilterListenersOK() && DataListenersOK()
      modifies this`filterListeners, this`updates, this`dataListeners, this`alls
      ensures alls == old(alls) + [a] && FilterListenersOK() && DataListenersOK()
    {
      hide Group.Updater;
      ghost var gs, listeners, dataBefore := alls, filterListeners, dataListeners;
      filterListeners := filterListeners + [AllOf(a)];
      dataListeners := dataListeners + [AddOf(a)];
      alls := alls + [a];
      AllRegistered(listeners, dataBefore, gs, a);
    }

    /** Adds a group-all. */
    method AddGroupAll() returns (a: GroupAll<T, P>)
      requires Valid()
      modifies this`filterListeners, this`updates, this`dataListeners, this`alls
      ensures Valid() && fresh(a) && alls == old(alls) + [a] && a.red == counter && a.resetNeeded
    {
      hide Group.OKAt, Dimension.OKAt, Dimension.BitsAt, Lawful, Monotone;
      hide GroupsAt, IndexListenersOK, DimsOK, FilterListenersOK, DataListenersOK;
      a := new GroupAll(counter, nil);
      RegisterAll(a);
      a.Extend(data, 0, filters);
    }

    /** Record r passes the filters of all dimensions but number d. */
    ghost predicate PassesOthers(d: nat, r: nat)
      requires r < |data|
      reads this`data, this`dims, dims`refilter
    {
      forall i :: 0 <= i < |dims| && i != d ==> Passes(dims[i].refilter, dims[i].value(data[r]))
    }

    /** A record's bits say which filters it does not pass. */
    lemma BitsAreFilters(d: nat, r: nat)
      requires Shape() && DimsOK() && r < |data|
      ensures filters.blocked[r] <= {d} <==> PassesOthers(d, r)
      ensures filters.blocked[r] == {} <==> PassesOthers(|dims|, r)
    {
      forall i | 0 <= i < |dims|
        ensures i in filters.blocked[r] <==> !Passes(dims[i].refilter, dims[i].value(data[r])) {
        assert dims[i].BitsAt(data, filters.blocked);
      }
    }

    /** The records of key x that pass the filters of all dimensions but the group's own. */
    ghost function GroupRecords(g: Group<T, P>, x: real): set<nat>
      reads this`data, this`dims, dims`refilter
    {
      set r: nat | r < |data| && g.Keys(data)[r] == x && PassesOthers(g.dim.one, r)
    }

    /** The records that pass every filter. */
    ghost function AllSelected(): set<nat>
      reads this`data, this`dims, dims`refilter
    {
      set r: nat | r < |data| && PassesOthers(|dims|, r)
    }

    /** bins is what a group of the records from scratch would be: a bin for each key of a record, in
        order, with the reduce value of the records that the other dimensions' filters let pass. */
    ghost predicate FromScratch(g: Group<T, P>, bins: seq<Bin<P>>)
      reads this`data, this`dims, dims`refilter, g`red
    {
      && Ascending(bins) && SameKeys(g.Keys(data), bins)
      && forall i :: 0 <= i < |bins| ==> bins[i].value == Fold(g.red, data, GroupRecords(g, bins[i].key))
    }

    lemma ReducedFromScratch(g: Group<T, P>)
      requires Shape() && DimsOK() && g.OKAt(data, filters.blocked) && !g.resetNeeded
      ensures FromScratch(g, g.bins)
    {
      hide Dimension.OKAt, Lawful;
      var keys := g.Keys(data);
      forall i | 0 <= i < |g.bins|
        ensures g.bins[i].value == Fold(g.red, data, GroupRecords(g, g.bins[i].key))
      {
        var x := g.bins[i].key;
        forall r: nat | r < |data|
          ensures r in AllMembers(keys, filters.blocked, g.dim.one, x) <==> r in GroupRecords(g, x) {
          BitsAreFilters(g.dim.one, r);
        }
        FoldAgrees(g.red, data, AllMembers(keys, filters.blocked, g.dim.one, x), GroupRecords(g, x));
      }
    }

    /** `all`: the bins, whose values are recomputed only if a reset is pending. */
    method GroupBins(g: Group<T, P>) returns (bins: seq<Bin<P>>)
      requires Valid() && g in groups
      modifies g`bins, g`resetNeeded
      ensures Valid() && bins == g.bins && FromScratch(g, bins) && |bins| == old(|g.bins|)
    {
      hide Group.OKAt, GroupAll.OKAt, Dimension.OKAt, Dimension.BitsAt, Lawful, Monotone, DataListenersOK;
      hide IndexListenersOK;
      if g.resetNeeded {
        g.Reset(data, filters);
      }
      ReducedFromScratch(g);
      bins := g.bins;
    }

    /** Sets a group's reduce functions. The values are recomputed when they are next asked for. */
    method Reduce(g: Group<T, P>, red: Reducer<T, P>)
      requires Valid() && g in groups && Lawful(red)
      modifies g`red, g`resetNeeded
      ensures Valid() && g.red == red && g.resetNeeded
    {
      hide Dimension.OKAt, Dimension.BitsAt, GroupAll.OKAt, Lawful, Monotone, DataListenersOK, IndexListenersOK;
      g.red, g.resetNeeded := red, true;
    }

    /** Sets a group-all's reduce functions. */
    method ReduceAll(a: GroupAll<T, P>, red: Reducer<T, P>)
      requires Valid() && a in alls && Lawful(red)
      modifies a`red, a`resetNeeded
      ensures Valid() && a.red == red && a.resetNeeded
    {
      hide Dimension.OKAt, Dimension.BitsAt, Group.OKAt, Lawful, Monotone, DataListenersOK, IndexListenersOK;
      a.red, a.resetNeeded := red, true;
    }

    /** `value` of a group-all: right unless there is a 32nd dimension. */
    method TotalValue(a: GroupAll<T, P>) returns (v: P)
      requires Valid() && a in alls
      modifies a`reduceValue, a`resetNeeded
      ensures Valid()
      ensures |dims| < 32 ==> v == Fold(a.red, data, AllSelected())
    {
      hide Dimension.OKAt, Dimension.BitsAt, Group.OKAt, Lawful, Monotone, DataListenersOK, IndexListenersOK;
      v := a.Value(data, filters);
      TotalFromScratch(a.red);
    }

    lemma TotalFromScratch(red: Reducer<T, P>)
      requires Shape() && DimsOK()
      ensures Total(red, data, filters.blocked) == Fold(red, data, AllSelected())
    {
      hide Dimension.OKAt, Lawful;
      forall r: nat | r < |data| ensures r in Unblocked(filters.blocked) <==> r in AllSelected() {
        BitsAreFilters(|dims|, r);
      }
      FoldAgrees(red, data, Unblocked(filters.blocked), AllSelected());
    }

    /** Sets the order of a group's top-k query. */
    method Order(g: Group<T, P>, order: P -> real)
      requires Valid() && g in groups
      modifies g`order
      ensures Valid() && g.order == order
    {
      hide Dimension.OKAt, Dimension.BitsAt, GroupAll.OKAt, Lawful, Monotone, DataListenersOK, IndexListenersOK;
      g.order := order;
    }

    lemma BinKeys(g: Group<T, P>)
      requires Valid() && g in groups
      ensures Ascending(g.bins) && SameKeys(g.Keys(data), g.bins)
    {
    }

    /** `top` of a group: the k bins with the largest reduce values by the group's order, largest first. */
    method GroupTop(g: Group<T, P>, k: int) returns (r: TopResult<P>)
      requires Valid() && g in groups && (k < MAX_LENGTH || |g.bins| < MAX_LENGTH)
      modifies g`bins, g`resetNeeded
      ensures Valid() && FromScratch(g, g.bins) && IsTopResult(g.order, g.bins, k, r)
    {
      hide IsTopResult, Valid, FromScratch;
      var bins := GroupBins(g);
      r := TopBins(g.order, bins, k);
    }

    /** The largest selected records by a dimension's value, largest first, as many as there are up to k. */
    ghost predicate TopRecords(dim: Dimension<T, P>, ids: seq<nat>, k: int)
      reads this`data, this`dims, dims`refilter
    {
      && Distinct(ids) && (forall i :: 0 <= i < |ids| ==> ids[i] < |data| && ids[i] in AllSelected())
      && |ids| == (if k <= 0 then 0 else Min(k, |AllSelected()|))
      && (forall i, j :: 0 <= i < j < |ids| ==> dim.value(data[ids[i]]) >= dim.value(data[ids[j]]))
      && forall r :: r in AllSelected() && r !in ids ==>
           r < |data| && forall i :: 0 <= i < |ids| ==> dim.value(data[r]) <= dim.value(data[ids[i]])
    }

    /** The records themselves. */
    ghost predicate AreRecords(top: seq<T>, ids: seq<nat>)
      reads this`data
    {
      |top| == |ids| && forall i :: 0 <= i < |ids| ==> ids[i] < |data| && top[i] == data[ids[i]]
    }

    /** `top` of a dimension. */
    method DimensionTop(dim: Dimension<T, P>, k: int) returns (top: seq<T>)
      requires Valid() && dim in dims
      ensures exists ids: seq<nat> :: TopRecords(dim, ids, k) && AreRecords(top, ids)
    {
      hide GroupsPlaced, GroupsAt, IndexListenersOK, AllsAt, AllsLawful, FilterListenersOK, DataListenersOK;
      hide Dimension.OKAt, Lawful, IsTopRanks, TopRecords;
      dim.BitsByRank(data, filters.blocked);
      ghost var ranks;
      top, ranks := SelectTop(data, filters, dim.index, dim.lo0, dim.hi0, k);
      TopRanksAreTop(dim, k, ranks);
      ghost var ids := RecordsOf(dim.index, ranks);
      assert AreRecords(top, ids);
    }

    /** A selected record's rank lies between the bounds of every dimension. */
    lemma SelectedRank(dim: Dimension<T, P>, r: nat) returns (p: nat)
      requires Shape() && DimsOK() && dim in dims && r in AllSelected()
      ensures IsIndex(dim.index, |data|) && dim.lo0 <= p < dim.hi0 <= |data| && dim.index[p] == r
        && filters.blocked[r] == {}
    {
      hide Lawful;
      dim.BitsByRank(data, filters.blocked);
      dim.IndexFacts(data);
      BitsAreFilters(|dims|, r);
      assert r in dim.index;
      p :| 0 <= p < |dim.index| && dim.index[p] == r;
    }

    /** A dimension's order is that of its values. */
    lemma OrderedByValue(dim: Dimension<T, P>, p: nat, q: nat)
      requires dim.OKAt(data) && p <= q < |data|
      ensures IsIndex(dim.index, |data|) && dim.value(data[dim.index[p]]) <= dim.value(data[dim.index[q]])
    {
      dim.IndexFacts(data);
      assert Identity(dim.values[p]) <= Identity(dim.values[q]);
    }

    /** The records of the top ranks are selected, and in non-increasing order of value. */
    lemma TopRanksSelected(dim: Dimension<T, P>, k: int, ranks: seq<nat>)
      requires Shape() && DimsOK() && dim in dims
      requires IsIndex(dim.index, |data|) && dim.hi0 <= |data|
      requires IsTopRanks(dim.index, filters.blocked, dim.lo0, dim.hi0, k, ranks)
      ensures RanksBelow(ranks, |data|)
      ensures var ids := RecordsOf(dim.index, ranks);
              && Distinct(ids) && (forall x :: x in ids ==> x in AllSelected())
              && forall i, j :: 0 <= i < j < |ids| ==> dim.value(data[ids[i]]) >= dim.value(data[ids[j]])
    {
      hide Lawful, Dimension.OKAt, Dimension.BitsAt;
      assert RanksBelow(ranks, |data|) by {
        forall i | 0 <= i < |ranks| ensures ranks[i] < |data| { assert ranks[i] in ranks; }
      }
      var ids := RecordsOf(dim.index, ranks);
      RecordsListed(dim.index, ranks);
      forall x | x in ids ensures x in AllSelected() {
        assert x in dim.index;
        var p :| 0 <= p < |dim.index| && dim.index[p] == x;
        BitsAreFilters(|dims|, x);
      }
      forall i, j | 0 <= i < j < |ids| ensures dim.value(data[ids[i]]) >= dim.value(data[ids[j]]) {
        OrderedByValue(dim, ranks[j], ranks[i]);
      }
    }

    /** The highest selected ranks are those of the largest selected records: only records between the
        dimension's bounds can pass every filter. */
    lemma TopRanksAreTop(dim: Dimension<T, P>, k: int, ranks: seq<nat>)
      requires Shape() && DimsOK() && dim in dims
      requires IsIndex(dim.index, |data|) && dim.hi0 <= |data|
      requires IsTopRanks(dim.index, filters.blocked, dim.lo0, dim.hi0, k, ranks)
      ensures RanksBelow(ranks, |data|) && TopRecords(dim, RecordsOf(dim.index, ranks), k)
    {
      hide Lawful, Dimension.OKAt, Dimension.BitsAt, AllSelected;
      TopRanksSelected(dim, k, ranks);
      var ids := RecordsOf(dim.index, ranks);
      RecordsListed(dim.index, ranks);
      forall r | r in AllSelected() && r !in ids
        ensures |ids| >= k && r < |data|
        ensures forall x :: x in ids ==> x < |data| && dim.value(data[r]) <= dim.value(data[x])
      {
        var p := SelectedRank(dim, r);
        forall x | x in ids ensures x < |data| && dim.value(data[r]) <= dim.value(data[x]) {
          var i :| 0 <= i < |ids| && ids[i] == x;
          assert ranks[i] in ranks;
          OrderedByValue(dim, p, ranks[i]);
        }
      }
      DistinctCount(ids, AllSelected());
    }
  }
}
