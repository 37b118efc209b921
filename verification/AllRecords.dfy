/** The reduce value over the records that pass every filter: the crossfilter's own `groupAll`. */
module AllRecords {
  import opened Filters
  import opened Reduction
  import opened Bitset
  import opened Updates

  /** The records that no dimension keeps out. */
  ghost function Unblocked(blocked: seq<set<nat>>): set<nat> {
    set r: nat | r < |blocked| && blocked[r] == {}
  }

  /** The reduce value from scratch. */
  ghost function Total<T, P>(red: Reducer<T, P>, data: seq<T>, blocked: seq<set<nat>>): P {
    Fold(red, data, Unblocked(blocked))
  }

  /** `reset`. */
  method ResetAll<T, P>(red: Reducer<T, P>, data: seq<T>, bits: FilterBits) returns (value: P)
    requires bits.Valid() && |bits.blocked| == |data|
    ensures value == Total(red, data, bits.blocked)
  {
    value := red.initial;
    for i := 0 to |data|
      invariant value == Fold(red, data[..i], Unblocked(bits.blocked))
    {
      assert data[..i + 1][..i] == data[..i];
      var selected := bits.AllClear(i);
      if selected { value := red.add(value, data[i]); }
    }
    assert data[..|data|] == data;
  }

  /** `add`: the selected records from n0 on. */
  method AddToAll<T, P>(red: Reducer<T, P>, data: seq<T>, bits: FilterBits, n0: nat, value0: P) returns (value: P)
    requires bits.Valid() && n0 <= |bits.blocked| == |data|
    ensures value0 == Total(red, data[..n0], bits.blocked[..n0]) ==> value == Total(red, data, bits.blocked)
  {
    value := value0;
    FoldAgrees(red, data[..n0], Unblocked(bits.blocked[..n0]), Unblocked(bits.blocked));
    for i := n0 to |data|
      invariant value0 == Total(red, data[..n0], bits.blocked[..n0]) ==>
        value == Fold(red, data[..i], Unblocked(bits.blocked))
    {
      assert data[..i + 1][..i] == data[..i];
      var selected := bits.AllClear(i);
      if selected { value := red.add(value, data[i]); }
    }
    assert data[..|data|] == data;
  }

  lemma TotalGains<T(!new), P(!new)>(red: Reducer<T, P>, data: seq<T>, b: seq<set<nat>>, k: nat, s: set<nat>)
    requires Lawful(red) && k < |data| == |b| && b[k] != {}
    ensures Total(red, data, b[k := s]) == if s == {} then red.add(Total(red, data, b), data[k])
      else Total(red, data, b)
  {
    if s == {} {
      assert Unblocked(b[k := s]) == Unblocked(b) + {k};
      FoldInsert(red, data, Unblocked(b), k);
    } else {
      assert Unblocked(b[k := s]) == Unblocked(b);
    }
  }

  lemma TotalLoses<T(!new), P(!new)>(red: Reducer<T, P>, data: seq<T>, b: seq<set<nat>>, k: nat, s: set<nat>)
    requires Lawful(red) && k < |data| == |b| && s != {}
    ensures Total(red, data, b[k := s]) == if b[k] == {} then red.remove(Total(red, data, b), data[k])
      else Total(red, data, b)
  {
    if b[k] == {} {
      assert Unblocked(b[k := s]) == Unblocked(b) - {k};
      FoldDelete(red, data, Unblocked(b), k);
    } else {
      assert Unblocked(b[k := s]) == Unblocked(b);
    }
  }

  /** The bitset for which the update leaves the right value: the new one, but without what a change of the 32nd
      dimension's filter has put out, because that dimension's mask never equals an element of the bitset. */
  ghost function Reached(b0: seq<set<nat>>, b1: seq<set<nat>>, e: nat, added: seq<nat>,
      removed: seq<nat>): seq<set<nat>>
    requires |b0| == |b1|
  {
    Mixed(b0, b1, added, removed, |added|, if e == 31 then 0 else |removed|)
  }

  /** `update`. */
  method UpdateAll<T(!new), P(!new)>(red: Reducer<T, P>, data: seq<T>, bits: FilterBits, e: nat, added: seq<nat>,
      removed: seq<nat>, value0: P, ghost b0: seq<set<nat>>)
    returns (value: P)
    requires bits.Valid() && |bits.blocked| == |data| && e < 32
    requires Lawful(red) && IsChange(b0, bits.blocked, e, added, removed)
    ensures |b0| == |data|
    ensures value0 == Total(red, data, b0) ==> value == Total(red, data, Reached(b0, bits.blocked, e, added, removed))
    ensures value0 == Total(red, data, b0) && NoneLost(bits.blocked, e, removed) ==>
      value == Total(red, data, bits.blocked)
  {
    hide IsChange, Mixed, Lawful, Total, NoneLost;
    ghost var b1 := bits.blocked;
    MixedStarts(b0, b1, e, added, removed);
    if NoneLost(b1, e, removed) { RightIfNoneLost(red, data, b0, b1, e, added, removed); }
    value := value0;
    for i := 0 to |added|
      invariant value0 == Total(red, data, b0) ==> value == Total(red, data, Mixed(b0, b1, added, removed, i, 0))
    {
      var k := added[i];
      MixedAdd(b0, b1, e, added, removed, i);
      TotalGains(red, data, Mixed(b0, b1, added, removed, i, 0), k, b1[k]);
      var selected := bits.AllClear(k);
      if selected { value := red.add(value, data[k]); }
    }
    for j := 0 to |removed|
      invariant value0 == Total(red, data, b0) ==>
        value == Total(red, data, Mixed(b0, b1, added, removed, |added|, if e == 31 then 0 else j))
    {
      var k := removed[j];
      MixedRemove(b0, b1, e, added, removed, j);
      TotalLoses(red, data, Mixed(b0, b1, added, removed, |added|, j), k, b1[k]);
      var deselected := bits.OnlyBlockedBy(k, e);
      if deselected { value := red.remove(value, data[k]); }
    }
  }

  /** No record that the 32nd dimension alone keeps out has just been put out by it. */
  ghost predicate NoneLost(b1: seq<set<nat>>, e: nat, removed: seq<nat>) {
    e != 31 || forall r :: r in removed && r < |b1| ==> b1[r] != {31}
  }

  /** The records counted by the value that the update arrives at: those that are selected now, and those that the
      32nd dimension has just put out. */
  lemma ReachedSelects(b0: seq<set<nat>>, b1: seq<set<nat>>, e: nat, added: seq<nat>, removed: seq<nat>, r: nat)
    requires IsChange(b0, b1, e, added, removed) && r < |b1|
    ensures |Reached(b0, b1, e, added, removed)| == |b1|
    ensures Reached(b0, b1, e, added, removed)[r] == {} <==> b1[r] == {} || (e == 31 && r in removed && b1[r] == {31})
  {
    assert added[..|added|] == added && removed[..|removed|] == removed;
    if r in removed && e == 31 {
      assert b1[r] == b0[r] + {31};
      if b0[r] == {} { assert b1[r] == {31}; }
      if b1[r] == {31} { assert b0[r] == b1[r] - {31}; }
    }
  }

  /** For all reduce functions the value is right if no such record has been put out. */
  lemma RightIfNoneLost<T, P>(red: Reducer<T, P>, data: seq<T>, b0: seq<set<nat>>, b1: seq<set<nat>>, e: nat,
      added: seq<nat>, removed: seq<nat>)
    requires IsChange(b0, b1, e, added, removed) && |data| == |b1| && NoneLost(b1, e, removed)
    ensures Total(red, data, Reached(b0, b1, e, added, removed)) == Total(red, data, b1)
  {
    hide IsChange, Reached;
    ChangeLength(b0, b1, e, added, removed);
    var b := Reached(b0, b1, e, added, removed);
    forall r: nat | r < |data| ensures r in Unblocked(b) <==> r in Unblocked(b1) {
      ReachedSelects(b0, b1, e, added, removed, r);
    }
    FoldAgrees(red, data, Unblocked(b), Unblocked(b1));
  }

  /** The count is right exactly then. */
  lemma CountRightIff<T(!new)>(data: seq<T>, b0: seq<set<nat>>, b1: seq<set<nat>>, e: nat, added: seq<nat>,
      removed: seq<nat>)
    requires IsChange(b0, b1, e, added, removed) && |data| == |b1|
    ensures Total(CountReducer(), data, Reached(b0, b1, e, added, removed)) == Total(CountReducer(), data, b1)
       <==> NoneLost(b1, e, removed)
  {
    hide IsChange, Reached;
    if NoneLost(b1, e, removed) {
      RightIfNoneLost(CountReducer<T>(), data, b0, b1, e, added, removed);
    } else {
      ChangeLength(b0, b1, e, added, removed);
      var b := Reached(b0, b1, e, added, removed);
      forall r: nat | r < |data|
        ensures |b| == |b1| && (b[r] == {} <==> b1[r] == {} || (e == 31 && r in removed && b1[r] == {31}))
      {
        ReachedSelects(b0, b1, e, added, removed, r);
      }
      var r :| r in removed && r < |b1| && b1[r] == {31};
      assert r in Unblocked(b) && Unblocked(b1) <= Unblocked(b) - {r};
      CountIsSize(data, Unblocked(b));
      CountIsSize(data, Unblocked(b1));
      SubsetSize(Unblocked(b1), Unblocked(b) - {r});
    }
  }

  lemma {:induction false} SubsetSize(s: set<nat>, t: set<nat>)
    requires s <= t
    ensures |s| <= |t|
  {
    assert t == s + (t - s);
  }

  /** A change of the 32nd dimension's filter that puts out a selected record leaves a wrong count. */
  lemma LastDimensionFails<T(!new)>(x: T)
    ensures var b0: seq<set<nat>>, b1: seq<set<nat>> := [{}], [{31}];
            IsChange(b0, b1, 31, [], [0])
            && Total(CountReducer(), [x], Reached(b0, b1, 31, [], [0])) != Total(CountReducer(), [x], b1)
  {
    CountRightIff([x], [{}], [{31}], 31, [], [0]);
  }
}
