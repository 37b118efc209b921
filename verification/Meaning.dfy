/** What operations on a crossfilter mean: records, filters and groups, without bits, ranks or listeners. */
module Meanings {
  import opened Int32
  import opened Filters
  import opened Reduction
  import opened Grouping
  import opened Crossfilters

  /** What a user can do. Dimensions, groups and group-alls are named by when they were made. */
  datatype Operation<!T(!new), !P(!new)> =
    | AddRecords(records: seq<T>)
    | MakeDimension(value: T -> real)
    | FilterDimension(d: nat, filter: Filter)
    | MakeGroup(d: nat, key: real -> real)
    | MakeGroupAll
    | SetReduce(g: nat, red: Reducer<T, P>)
    | SetReduceAll(a: nat, red: Reducer<T, P>)
    | SetOrder(g: nat, order: P -> real)
    | QueryGroup(g: nat)
    | QueryGroupAll(a: nat)
    | QueryTopBins(g: nat, k: int)
    | QueryTopRecords(d: nat, k: int)

  datatype DimensionState<!T(!new)> = DimensionState(value: T -> real, filter: Filter)

  datatype GroupState<!T(!new), !P(!new)> = GroupState(d: nat, key: real -> real, red: Reducer<T, P>, order: P -> real)

  /** What there is to know of a crossfilter: of a group-all, its reduce functions. */
  datatype State<!T(!new), !P(!new)> = State(
    data: seq<T>,
    dims: seq<DimensionState<T>>, groups: seq<GroupState<T, P>>,
    alls: seq<Reducer<T, P>>
  )

  /** The reduce functions and the order that groups begin with. */
  datatype Defaults<!T(!new), !P(!new)> = Defaults(counter: Reducer<T, P>, natural: P -> real)

  /** Queries change nothing, nor do operations on what has not been made. */
  function Step<T(!new), P(!new)>(defaults: Defaults<T, P>, s: State<T, P>, op: Operation<T, P>): State<T, P> {
    match op
    case AddRecords(records) => s.(data := s.data + records)
    case MakeDimension(value) => s.(dims := s.dims + [DimensionState(value, All)])
    case FilterDimension(d, filter) => if d < |s.dims| then s.(dims := s.dims[d := s.dims[d].(filter := filter)]) else s
    case MakeGroup(d, key) =>
      if d < |s.dims| then s.(groups := s.groups + [GroupState(d, key, defaults.counter, defaults.natural)]) else s
    case MakeGroupAll => s.(alls := s.alls + [defaults.counter])
    case SetReduce(g, red) => if g < |s.groups| then s.(groups := s.groups[g := s.groups[g].(red := red)]) else s
    case SetReduceAll(a, red) => if a < |s.alls| then s.(alls := s.alls[a := red]) else s
    case SetOrder(g, order) => if g < |s.groups| then s.(groups := s.groups[g := s.groups[g].(order := order)]) else s
    case _ => s
  }

  function Meaning<T(!new), P(!new)>(defaults: Defaults<T, P>, ops: seq<Operation<T, P>>): State<T, P> {
    if ops == [] then State([], [], [], [])
    else Step(defaults, Meaning(defaults, ops[..|ops| - 1]), ops[|ops| - 1])
  }

  /** Neither the bitset nor the binary search fits more. */
  predicate Fits<T(!new), P(!new)>(s: State<T, P>) {
    |s.data| <= MAX_LENGTH && |s.dims| <= 32
  }

  lemma {:induction false} FitsBefore<T(!new), P(!new)>(defaults: Defaults<T, P>, ops: seq<Operation<T, P>>, i: nat)
    requires i <= |ops| && Fits(Meaning(defaults, ops))
    ensures Fits(Meaning(defaults, ops[..i]))
    decreases |ops|
  {
    if i == |ops| {
      assert ops[..i] == ops;
    } else {
      FitsBefore(defaults, ops[..|ops| - 1], i);
      assert ops[..|ops| - 1][..i] == ops[..i];
    }
  }

  ghost function ValuesOf<T(!new), P(!new)>(s: State<T, P>, d: nat): (values: seq<real>)
    requires d < |s.dims|
    ensures |values| == |s.data|
  {
    seq(|s.data|, r requires 0 <= r < |s.data| => s.dims[d].value(s.data[r]))
  }

  /** What the source expects of filters, keys and reduce functions, and of how many bins it can select the top. */
  ghost predicate Sensible<T(!new), P(!new)>(s: State<T, P>, op: Operation<T, P>) {
    match op
    case FilterDimension(d, filter) => d < |s.dims| ==> !Clash(s.dims[d].filter, filter, ValuesOf(s, d))
    case MakeGroup(_, key) => Monotone(key)
    case SetReduce(_, red) => Lawful(red)
    case SetReduceAll(_, red) => Lawful(red)
    case QueryTopBins(g, k) => g < |s.groups| && s.groups[g].d < |s.dims| ==>
      k < MAX_LENGTH || |KeysOf(s, s.groups[g])| < MAX_LENGTH
    case _ => true
  }

  // ---------- What queries should answer ----------

  /** Record r passes the filters of all dimensions but number d. */
  ghost predicate PassesOthers<T(!new), P(!new)>(s: State<T, P>, d: nat, r: nat)
    requires r < |s.data|
  {
    forall i :: 0 <= i < |s.dims| && i != d ==> Passes(s.dims[i].filter, s.dims[i].value(s.data[r]))
  }

  /** The records that pass every filter. */
  ghost function Selected<T(!new), P(!new)>(s: State<T, P>): set<nat> {
    set r: nat | r < |s.data| && PassesOthers(s, |s.dims|, r)
  }

  ghost function KeyOf<T(!new), P(!new)>(s: State<T, P>, g: GroupState<T, P>, r: nat): real
    requires g.d < |s.dims| && r < |s.data|
  {
    g.key(s.dims[g.d].value(s.data[r]))
  }

  ghost function KeysOf<T(!new), P(!new)>(s: State<T, P>, g: GroupState<T, P>): set<real>
    requires g.d < |s.dims|
  {
    set r: nat | r < |s.data| :: KeyOf(s, g, r)
  }

  /** The records of key x that pass the filters of all dimensions but the group's own. */
  ghost function RecordsOfKey<T(!new), P(!new)>(s: State<T, P>, g: GroupState<T, P>, x: real): set<nat>
    requires g.d < |s.dims|
  {
    set r: nat | r < |s.data| && KeyOf(s, g, r) == x && PassesOthers(s, g.d, r)
  }

  ghost predicate IsKey<T(!new), P(!new)>(s: State<T, P>, g: GroupState<T, P>, x: real)
    requires g.d < |s.dims|
  {
    exists r: nat :: r < |s.data| && KeyOf(s, g, r) == x
  }

  /** A bin for each key of a record, in order, with the reduce value of the records of that key which the
      other dimensions' filters let pass. */
  ghost predicate IsBins<T(!new), P(!new)>(s: State<T, P>, g: GroupState<T, P>, bins: seq<Bin<P>>) {
    && g.d < |s.dims| && Ascending(bins)
    && (forall i :: 0 <= i < |bins| ==> IsKey(s, g, bins[i].key))
    && (forall r: nat :: r < |s.data| ==> HasKey(bins, KeyOf(s, g, r)))
    && (forall i :: 0 <= i < |bins| ==> bins[i].value == Fold(g.red, s.data, RecordsOfKey(s, g, bins[i].key)))
  }

  /** There is only one right list of bins. */
  lemma BinsUnique<T(!new), P(!new)>(s: State<T, P>, g: GroupState<T, P>, b: seq<Bin<P>>, c: seq<Bin<P>>)
    requires IsBins(s, g, b) && IsBins(s, g, c)
    ensures b == c
  {
    hide RecordsOfKey, KeyOf;
    BinsAlike(s, g, b, c, |b|);
    BinsAlike(s, g, c, b, |c|);
  }

  /** The first n bins of one list are the first n of the other. */
  lemma {:induction false} BinsAlike<T(!new), P(!new)>(s: State<T, P>, g: GroupState<T, P>, b: seq<Bin<P>>,
      c: seq<Bin<P>>, n: nat)
    requires IsBins(s, g, b) && IsBins(s, g, c) && n <= |b|
    ensures n <= |c| && forall i :: 0 <= i < n ==> b[i] == c[i]
  {
    hide IsBins;
    if n > 0 {
      BinsAlike(s, g, b, c, n - 1);
      BinsAscend(s, g, b);
      BinsAscend(s, g, c);
      var j := BinFor(s, g, b, c, n - 1);
      if n - 1 < j {
        var i := BinFor(s, g, c, b, n - 1);
      }
    }
  }

  lemma BinsAscend<T(!new), P(!new)>(s: State<T, P>, g: GroupState<T, P>, b: seq<Bin<P>>)
    requires IsBins(s, g, b)
    ensures Ascending(b)
  {
  }

  lemma BinFor<T(!new), P(!new)>(s: State<T, P>, g: GroupState<T, P>, b: seq<Bin<P>>, c: seq<Bin<P>>, i: nat)
    returns (j: nat)
    requires IsBins(s, g, b) && IsBins(s, g, c) && i < |b|
    ensures j < |c| && c[j] == b[i]
  {
    hide RecordsOfKey, KeyOf, Ascending;
    assert IsKey(s, g, b[i].key);
    var r: nat :| r < |s.data| && KeyOf(s, g, r) == b[i].key;
    assert HasKey(c, KeyOf(s, g, r));
    j :| 0 <= j < |c| && c[j].key == b[i].key;
  }

  /** The k largest selected records by a dimension's value, largest first. */
  ghost predicate IsTopRecords<T(!new), P(!new)>(s: State<T, P>, d: nat, ids: seq<nat>, k: int) {
    && d < |s.dims| && Distinct(ids) && (forall i :: 0 <= i < |ids| ==> ids[i] < |s.data| && ids[i] in Selected(s))
    && |ids| == (if k <= 0 then 0 else Min(k, |Selected(s)|))
    && (forall i, j :: 0 <= i < j < |ids| ==> s.dims[d].value(s.data[ids[i]]) >= s.dims[d].value(s.data[ids[j]]))
    && forall r :: r in Selected(s) && r !in ids ==>
         r < |s.data| && forall i :: 0 <= i < |ids| ==> s.dims[d].value(s.data[r]) <= s.dims[d].value(s.data[ids[i]])
  }

  ghost predicate AreRecords<T(!new)>(data: seq<T>, top: seq<T>, ids: seq<nat>) {
    |top| == |ids| && forall i :: 0 <= i < |ids| ==> ids[i] < |data| && top[i] == data[ids[i]]
  }

  datatype Answer<!T(!new), !P(!new)> =
    | NoAnswer
    | BinsAre(bins: seq<Bin<P>>)
    | TotalIs(value: P)
    | TopBinsAre(top: TopResult<P>)
    | TopRecordsAre(records: seq<T>)

  /** The right answer to an operation in state s. With 32 dimensions a group-all may answer anything. */
  ghost predicate Right<T(!new), P(!new)>(s: State<T, P>, op: Operation<T, P>, answer: Answer<T, P>) {
    match op
    case QueryGroup(g) => g < |s.groups| ==>
      answer.BinsAre? && IsBins(s, s.groups[g], answer.bins)
    case QueryGroupAll(a) =>
      a < |s.alls| ==> answer.TotalIs? && (|s.dims| < 32 ==> answer.value == Fold(s.alls[a], s.data, Selected(s)))
    case QueryTopBins(g, k) => g < |s.groups| ==>
      answer.TopBinsAre? && exists bins ::
        IsBins(s, s.groups[g], bins) && IsTopResult(s.groups[g].order, bins, k, answer.top)
    case QueryTopRecords(d, k) => d < |s.dims| ==>
      answer.TopRecordsAre? && exists ids :: IsTopRecords(s, d, ids, k) && AreRecords(s.data, answer.records, ids)
    case _ => answer.NoAnswer?
  }

  // ---------- Counts and sums ----------

  /** A group that reduces to a sum has, in each bin, the sum of f over the records of its key that pass the other
      dimensions' filters. */
  lemma SumsOfBins<T(!new)>(s: State<T, real>, g: nat, f: T -> real, answer: Answer<T, real>)
    requires g < |s.groups| && s.groups[g].d < |s.dims| && s.groups[g].red == SumReducer(f)
    requires Right(s, QueryGroup(g), answer)
    ensures answer.BinsAre? && forall i :: 0 <= i < |answer.bins| ==>
      answer.bins[i].value == SumOver(f, s.data, RecordsOfKey(s, s.groups[g], answer.bins[i].key))
  {
    forall i | 0 <= i < |answer.bins|
      ensures answer.bins[i].value == SumOver(f, s.data, RecordsOfKey(s, s.groups[g], answer.bins[i].key))
    {
      SumIsSum(f, s.data, RecordsOfKey(s, s.groups[g], answer.bins[i].key));
    }
  }

  /** A group that counts has the number of those records. */
  lemma CountsOfBins<T(!new)>(s: State<T, real>, g: nat, answer: Answer<T, real>)
    requires g < |s.groups| && s.groups[g].d < |s.dims| && s.groups[g].red == CountReducer()
    requires Right(s, QueryGroup(g), answer)
    ensures answer.BinsAre? && forall i :: 0 <= i < |answer.bins| ==>
      answer.bins[i].value == |RecordsOfKey(s, s.groups[g], answer.bins[i].key)| as real
  {
    forall i | 0 <= i < |answer.bins|
      ensures answer.bins[i].value == |RecordsOfKey(s, s.groups[g], answer.bins[i].key)| as real
    {
      CountIsSize(s.data, RecordsOfKey(s, s.groups[g], answer.bins[i].key));
    }
  }

  /** A group-all has the sum, or the number, of all records that pass every filter. */
  lemma SumOfAll<T(!new)>(s: State<T, real>, a: nat, f: T -> real, answer: Answer<T, real>)
    requires a < |s.alls| && |s.dims| < 32 && s.alls[a] == SumReducer(f) && Right(s, QueryGroupAll(a), answer)
    ensures answer.TotalIs? && answer.value == SumOver(f, s.data, Selected(s))
  {
    SumIsSum(f, s.data, Selected(s));
  }

  lemma CountOfAll<T(!new)>(s: State<T, real>, a: nat, answer: Answer<T, real>)
    requires a < |s.alls| && |s.dims| < 32 && s.alls[a] == CountReducer() && Right(s, QueryGroupAll(a), answer)
    ensures answer.TotalIs? && answer.value == |Selected(s)| as real
  {
    CountIsSize(s.data, Selected(s));
  }
}
