/** Whole runs: any operations on a crossfilter, one after the other. */
module Sessions {
  import opened Int32
  import opened Filters
  import opened Reduction
  import opened Grouping
  import opened Crossfilters
  import opened Meanings

  /** A crossfilter in use, with what has been made of it. */
  class Session<T(!new), P(!new)> {
    const cf: Crossfilter<T, P>
    var dims: seq<Dimension<T, P>>
    var groups: seq<Group<T, P>>
    var alls: seq<GroupAll<T, P>>
    /** What the operations so far mean. */
    ghost var state: State<T, P>
    ghost var Repr: set<object>

    ghost function Initially(): Defaults<T, P> {
      Defaults(cf.counter, cf.natural)
    }

    ghost predicate DimsShown(ds: seq<DimensionState<T>>)
      reads this`dims, dims`refilter
    {
      |ds| == |dims| && forall i :: 0 <= i < |dims| ==> ds[i] == DimensionState(dims[i].value, dims[i].refilter)
    }

    ghost predicate GroupsShown(gs: seq<GroupState<T, P>>)
      reads this`groups, groups`red, groups`order
    {
      && |gs| == |groups|
      && forall i :: 0 <= i < |groups| ==>
        gs[i] == GroupState(groups[i].dim.one, groups[i].key, groups[i].red, groups[i].order)
    }

    ghost predicate AllsShown(reducers: seq<Reducer<T, P>>)
      reads this`alls, alls`red
    {
      |reducers| == |alls| && forall i :: 0 <= i < |alls| ==> reducers[i] == alls[i].red
    }

    /** The crossfilter is in the state. */
    ghost predicate Shows(s: State<T, P>)
      reads this`dims, this`groups, this`alls, cf`data, dims`refilter, groups`red, groups`order, alls`red
    {
      && s.data == cf.data && |s.dims| == |dims| && |s.groups| == |groups| && |s.alls| == |alls|
      && DimsShown(s.dims) && GroupsShown(s.groups) && AllsShown(s.alls)
    }

    ghost predicate Footprint()
      reads this, cf
    {
      && this in Repr && cf in Repr && cf.filters in Repr && this !in {cf as object, cf.filters}
      && (forall d :: d in cf.dims ==> d in Repr)
      && (forall g :: g in cf.groups ==> g in Repr)
      && (forall a :: a in cf.alls ==> a in Repr)
      && dims == cf.dims && groups == cf.groups && alls == cf.alls
    }

    ghost predicate Valid()
      reads this, cf, Repr
    {
      Footprint() && cf.Valid() && Shows(state)
    }

    constructor (nil: P, counter: Reducer<T, P>, natural: P -> real)
      requires Lawful(counter)
      ensures Valid() && fresh(Repr) && fresh(cf) && state == State([], [], [], [])
        && Initially() == Defaults(counter, natural)
    {
      cf := new Crossfilter(nil, counter, natural);
      dims, groups, alls, state := [], [], [], State([], [], [], []);
      new;
      Repr := {this, cf, cf.filters};
    }

    lemma Sizes()
      requires Footprint() && cf.Valid()
      ensures |cf.data| <= MAX_LENGTH && cf.m == |dims| <= 32
    {
    }

    lemma Counts()
      requires Valid()
      ensures |state.dims| == |dims| && |state.groups| == |groups| && |state.alls| == |alls| && state.data == cf.data
      ensures Fits(state)
    {
      hide Crossfilter.Valid, DimsShown, GroupsShown, AllsShown;
      Sizes();
    }

    /** What the crossfilter's invariant says of its parts. */
    lemma Parts()
      requires Footprint() && cf.Valid()
      ensures |cf.data| <= MAX_LENGTH && cf.m == |dims| <= 32
      ensures forall i :: 0 <= i < |dims| ==> dims[i].one == i
      ensures forall i, j :: 0 <= i < j < |dims| ==> dims[i] != dims[j]
      ensures forall i, j :: 0 <= i < j < |groups| ==> groups[i] != groups[j]
      ensures forall i, j :: 0 <= i < j < |alls| ==> alls[i] != alls[j]
      ensures forall i :: 0 <= i < |groups| ==> groups[i].dim.one < |dims| && groups[i].dim == dims[groups[i].dim.one]
    {
      hide Monotone, Lawful;
      assert forall i :: 0 <= i < |groups| ==> groups[i] in groups;
    }

    method AddSome(records: seq<T>)
      requires Valid() && |state.data| + |records| <= MAX_LENGTH
      modifies Repr
      ensures Valid() && Repr == old(Repr) && state == Step(Initially(), old(state), AddRecords(records))
    {
      hide Crossfilter.Valid;
      cf.Add(records);
      state := state.(data := state.data + records);
    }

    method NewDimension(value: T -> real)
      requires Valid() && |state.dims| < 32
      modifies Repr
      ensures Valid() && fresh(Repr - old(Repr)) && state == Step(Initially(), old(state), MakeDimension(value))
    {
      hide Crossfilter.Valid, GroupsShown, AllsShown;
      Sizes();
      var r := cf.AddDimension(value);
      dims := dims + [r.dim];
      Repr := Repr + {r.dim};
      state := state.(dims := state.dims + [DimensionState(value, All)]);
    }

    method NewGroup(d: nat, key: real -> real)
      requires Valid() && d < |state.dims| && Monotone(key)
      modifies Repr
      ensures Valid() && fresh(Repr - old(Repr)) && state == Step(Initially(), old(state), Operation.MakeGroup(d, key))
    {
      hide Crossfilter.Valid, DimsShown, AllsShown, Monotone;
      Parts();
      var g := cf.AddGroup(dims[d], key);
      groups := groups + [g];
      Repr := Repr + {g};
      state := state.(groups := state.groups + [GroupState(d, key, cf.counter, cf.natural)]);
    }

    method NewGroupAll()
      requires Valid()
      modifies Repr
      ensures Valid() && fresh(Repr - old(Repr)) && state == Step(Initially(), old(state), MakeGroupAll)
    {
      hide Crossfilter.Valid, DimsShown, GroupsShown;
      var a := cf.AddGroupAll();
      alls := alls + [a];
      Repr := Repr + {a};
      state := state.(alls := state.alls + [cf.counter]);
    }

    method FilterOne(d: nat, filter: Filter)
      requires Valid() && d < |state.dims| && Sensible(state, FilterDimension(d, filter))
      modifies Repr
      ensures Valid() && Repr == old(Repr) && state == Step(Initially(), old(state), FilterDimension(d, filter))
    {
      hide Crossfilter.Valid, GroupsShown, AllsShown, Clash;
      Parts();
      assert ValuesOf(state, d) == dims[d].ValuesOf(cf.data);
      cf.Apply(dims[d], filter);
      state := state.(dims := state.dims[d := state.dims[d].(filter := filter)]);
    }

    method ReduceOne(g: nat, red: Reducer<T, P>)
      requires Valid() && g < |state.groups| && Lawful(red)
      modifies Repr
      ensures Valid() && Repr == old(Repr) && state == Step(Initially(), old(state), SetReduce(g, red))
    {
      hide Crossfilter.Valid, DimsShown, AllsShown, Lawful;
      Parts();
      cf.Reduce(groups[g], red);
      state := state.(groups := state.groups[g := state.groups[g].(red := red)]);
    }

    method ReduceOneAll(a: nat, red: Reducer<T, P>)
      requires Valid() && a < |state.alls| && Lawful(red)
      modifies Repr
      ensures Valid() && Repr == old(Repr) && state == Step(Initially(), old(state), SetReduceAll(a, red))
    {
      hide Crossfilter.Valid, DimsShown, GroupsShown, Lawful;
      Parts();
      cf.ReduceAll(alls[a], red);
      state := state.(alls := state.alls[a := red]);
    }

    method OrderOne(g: nat, order: P -> real)
      requires Valid() && g < |state.groups|
      modifies Repr
      ensures Valid() && Repr == old(Repr) && state == Step(Initially(), old(state), SetOrder(g, order))
    {
      hide Crossfilter.Valid, DimsShown, AllsShown;
      Parts();
      cf.Order(groups[g], order);
      state := state.(groups := state.groups[g := state.groups[g].(order := order)]);
    }

    /** What the crossfilter selects is what the state selects. */
    lemma SameSelection(d: nat, r: nat)
      requires DimsShown(state.dims) && state.data == cf.data && dims == cf.dims && r < |cf.data|
      ensures cf.PassesOthers(d, r) <==> PassesOthers(state, d, r)
    {
    }

    lemma SameSelected()
      requires DimsShown(state.dims) && |state.dims| == |dims| && state.data == cf.data && dims == cf.dims
      ensures cf.AllSelected() == Selected(state)
    {
      hide Crossfilter.PassesOthers, PassesOthers, DimsShown;
      forall r: nat | r < |cf.data| ensures cf.PassesOthers(|dims|, r) <==> PassesOthers(state, |dims|, r) {
        SameSelection(|dims|, r);
      }
    }

    lemma SameRecords(g: nat, x: real)
      requires Shows(state) && dims == cf.dims && g < |groups|
      requires groups[g].dim.one < |dims| && groups[g].dim == dims[groups[g].dim.one]
      ensures cf.GroupRecords(groups[g], x) == RecordsOfKey(state, state.groups[g], x)
    {
      hide Crossfilter.PassesOthers, PassesOthers;
      forall r: nat | r < |cf.data|
        ensures r in cf.GroupRecords(groups[g], x) <==> r in RecordsOfKey(state, state.groups[g], x)
      {
        SameSelection(groups[g].dim.one, r);
      }
    }

    /** The crossfilter's bins from scratch are those of the state. */
    lemma SameBins(g: nat, bins: seq<Bin<P>>)
      requires Shows(state) && dims == cf.dims && g < |groups|
      requires groups[g].dim.one < |dims| && groups[g].dim == dims[groups[g].dim.one]
      requires cf.FromScratch(groups[g], bins)
      ensures IsBins(state, state.groups[g], bins)
    {
      hide RecordsOfKey, Crossfilter.GroupRecords;
      var keys, s := groups[g].Keys(cf.data), state.groups[g];
      forall r: nat | r < |cf.data| ensures keys[r] == KeyOf(state, s, r) && HasKey(bins, KeyOf(state, s, r)) {
        assert HasKey(bins, keys[r]);
      }
      forall i | 0 <= i < |bins|
        ensures IsKey(state, s, bins[i].key)
        ensures bins[i].value == Fold(s.red, state.data, RecordsOfKey(state, s, bins[i].key))
      {
        var r: nat :| r < |keys| && keys[r] == bins[i].key;
        SameRecords(g, bins[i].key);
      }
      assert forall r: nat :: r < |state.data| ==> HasKey(bins, KeyOf(state, s, r));
    }

    method AskGroup(g: nat) returns (bins: seq<Bin<P>>)
      requires Valid() && g < |state.groups|
      modifies Repr
      ensures Valid() && Repr == old(Repr) && state == old(state) && IsBins(state, state.groups[g], bins)
    {
      hide Crossfilter.Valid, IsBins, Crossfilter.FromScratch;
      Parts();
      bins := cf.GroupBins(groups[g]);
      SameBins(g, bins);
    }

    method AskGroupAll(a: nat) returns (value: P)
      requires Valid() && a < |state.alls|
      modifies Repr
      ensures Valid() && Repr == old(Repr) && state == old(state)
      ensures |state.dims| < 32 ==> value == Fold(state.alls[a], state.data, Selected(state))
    {
      hide Crossfilter.Valid, Selected, Crossfilter.AllSelected, DimsShown;
      Parts();
      value := cf.TotalValue(alls[a]);
      SameSelected();
    }

    lemma KeyCount(g: nat)
      requires Valid() && g < |groups|
      ensures g < |state.groups| && state.groups[g].d < |state.dims|
        && |groups[g].bins| == |KeysOf(state, state.groups[g])|
    {
      hide Crossfilter.Valid;
      Parts();
      var keys, s := groups[g].Keys(cf.data), state.groups[g];
      cf.BinKeys(groups[g]);
      var bins := groups[g].bins;
      forall r: nat | r < |cf.data| ensures keys[r] == KeyOf(state, s, r) && HasKey(bins, KeyOf(state, s, r)) {
        assert HasKey(bins, keys[r]);
      }
      forall i | 0 <= i < |bins| ensures bins[i].key in KeysOf(state, s) {
        var r: nat :| r < |keys| && keys[r] == bins[i].key;
        assert KeyOf(state, s, r) == bins[i].key;
      }
      forall x | x in KeySet(bins) ensures x in KeysOf(state, s) {
        var i :| 0 <= i < |bins| && bins[i].key == x;
      }
      assert KeysOf(state, s) == KeySet(bins);
      BinsPerKey(bins);
    }

    method AskTopBins(g: nat, k: int) returns (top: TopResult<P>)
      requires Valid() && g < |state.groups| && Sensible(state, QueryTopBins(g, k))
      modifies Repr
      ensures Valid() && Repr == old(Repr) && state == old(state)
      ensures exists bins :: IsBins(state, state.groups[g], bins) && IsTopResult(state.groups[g].order, bins, k, top)
    {
      hide Crossfilter.Valid, IsBins, Crossfilter.FromScratch, IsTopResult;
      Parts();
      KeyCount(g);
      top := cf.GroupTop(groups[g], k);
      SameBins(g, groups[g].bins);
    }

    lemma SameTop(d: nat, top: seq<T>, ids: seq<nat>, k: int)
      requires DimsShown(state.dims) && |state.dims| == |dims| && state.data == cf.data && dims == cf.dims && d < |dims|
      requires cf.TopRecords(dims[d], ids, k) && cf.AreRecords(top, ids)
      ensures IsTopRecords(state, d, ids, k) && AreRecords(state.data, top, ids)
    {
      hide Selected, Crossfilter.AllSelected;
      SameSelected();
    }

    method AskTopRecords(d: nat, k: int) returns (top: seq<T>)
      requires Valid() && d < |state.dims|
      ensures exists ids :: IsTopRecords(state, d, ids, k) && AreRecords(state.data, top, ids)
    {
      hide Crossfilter.Valid, Crossfilter.TopRecords, IsTopRecords, Crossfilter.AreRecords, AreRecords, DimsShown;
      Parts();
      top := cf.DimensionTop(dims[d], k);
      ghost var ids :| cf.TopRecords(dims[d], ids, k) && cf.AreRecords(top, ids);
      SameTop(d, top, ids, k);
    }

    /** Any operation that fits, and its answer. */
    method Perform(op: Operation<T, P>) returns (answer: Answer<T, P>)
      requires Valid() && Sensible(state, op) && Fits(Step(Initially(), state, op))
      modifies Repr
      ensures Valid() && fresh(Repr - old(Repr))
      ensures state == Step(Initially(), old(state), op) && Right(old(state), op, answer)
    {
      hide Valid, Monotone, Lawful, Clash, IsBins, IsTopRecords, AreRecords, IsTopResult, Selected;
      Counts();
      answer := NoAnswer;
      match op
      case AddRecords(records) => AddSome(records);
      case MakeDimension(value) => NewDimension(value);
      case FilterDimension(d, filter) => if d < |dims| { FilterOne(d, filter); }
      case MakeGroup(d, key) => if d < |dims| { NewGroup(d, key); }
      case MakeGroupAll => NewGroupAll();
      case SetReduce(g, red) => if g < |groups| { ReduceOne(g, red); }
      case SetReduceAll(a, red) => if a < |alls| { ReduceOneAll(a, red); }
      case SetOrder(g, order) => if g < |groups| { OrderOne(g, order); }
      case QueryGroup(g) => if g < |groups| { var bins := AskGroup(g); answer := BinsAre(bins); }
      case QueryGroupAll(a) => if a < |alls| { var value := AskGroupAll(a); answer := TotalIs(value); }
      case QueryTopBins(g, k) => if g < |groups| { var top := AskTopBins(g, k); answer := TopBinsAre(top); }
      case QueryTopRecords(d, k) => if d < |dims| { var top := AskTopRecords(d, k); answer := TopRecordsAre(top); }
    }

    /** Whether the source can carry an operation out: not with more records than the searches take, nor with
        more dimensions than the bitset does. */
    method Accepts(op: Operation<T, P>) returns (ok: bool)
      requires Valid()
      ensures ok <==> Fits(Step(Initially(), state, op))
    {
      hide Valid;
      Counts();
      match op
      case AddRecords(records) => ok := |cf.data| + |records| <= MAX_LENGTH;
      case MakeDimension(_) => ok := |dims| < 32;
      case _ => ok := true;
    }
  }

  /** Whatever is done with a crossfilter, in whatever order: every answer is right in the state that the operations
      before it mean, and in the end the crossfilter is in the state that all of them mean. */
  method RunAll<T(!new), P(!new)>(nil: P, counter: Reducer<T, P>, natural: P -> real, ops: seq<Operation<T, P>>)
    returns (ok: bool, session: Session<T, P>, answers: seq<Answer<T, P>>)
    requires Lawful(counter)
    requires forall i :: 0 <= i < |ops| ==> Sensible(Meaning(Defaults(counter, natural), ops[..i]), ops[i])
    ensures ok <==> Fits(Meaning(Defaults(counter, natural), ops))
    ensures ok ==> session.Valid() && session.state == Meaning(Defaults(counter, natural), ops) && |answers| == |ops|
    ensures ok ==> forall i :: 0 <= i < |ops| ==>
      Right(Meaning(Defaults(counter, natural), ops[..i]), ops[i], answers[i])
  {
    hide Session.Valid, Sensible, Lawful, Right, Fits, Step;
    ghost var defaults := Defaults(counter, natural);
    session := new Session(nil, counter, natural);
    answers := [];
    for i := 0 to |ops|
      invariant session.Valid() && fresh(session) && fresh(session.Repr) && session.Initially() == defaults
      invariant session.state == Meaning(defaults, ops[..i]) && |answers| == i
      invariant forall j :: 0 <= j < i ==> Right(Meaning(defaults, ops[..j]), ops[j], answers[j])
    {
      assert ops[..i + 1][..i] == ops[..i];
      ok := session.Accepts(ops[i]);
      if !ok {
        if Fits(Meaning(defaults, ops)) { FitsBefore(defaults, ops, i + 1); }
        return;
      }
      var answer := session.Perform(ops[i]);
      answers := answers + [answer];
    }
    assert ops[..|ops|] == ops;
    session.Counts();
    ok := true;
  }
}
