/** Reduce functions and what it means to reduce a set of records from scratch. */
module Reduction {

  datatype Reducer<!T, !P> = Reducer(add: (P, T) -> P, remove: (P, T) -> P, initial: P)

  /** Removing undoes adding, and the order of additions does not matter. */
  ghost predicate Lawful<T(!new), P(!new)>(r: Reducer<T, P>) {
    && (forall p: P, v: T :: r.remove(r.add(p, v), v) == p)
    && (forall p: P, v: T, w: T :: r.add(r.add(p, v), w) == r.add(r.add(p, w), v))
  }

  /** crossfilter_reduceIncrement, crossfilter_reduceDecrement and crossfilter_zero. */
  function CountReducer<T>(): Reducer<T, real> {
    Reducer((p: real, v: T) => p + 1.0, (p: real, v: T) => p - 1.0, 0.0)
  }

  /** crossfilter_reduceAdd, crossfilter_reduceSubtract and crossfilter_zero. */
  function SumReducer<T>(f: T -> real): Reducer<T, real> {
    Reducer((p: real, v: T) => p + f(v), (p: real, v: T) => p - f(v), 0.0)
  }

  lemma BuiltInReducersLawful<T(!new)>(f: T -> real)
    ensures Lawful(CountReducer<T>()) && Lawful(SumReducer(f))
    ensures forall data: seq<T>, s: set<nat> :: Fold(SumReducer(f), data, s) == SumOver(f, data, s)
  {
    forall data: seq<T>, s: set<nat> ensures Fold(SumReducer(f), data, s) == SumOver(f, data, s) {
      SumIsSum(f, data, s);
    }
  }

  /** The records whose ids are in s, added to the initial value in order of id. */
  ghost function Fold<T, P>(r: Reducer<T, P>, data: seq<T>, s: set<nat>): P
    decreases |data|
  {
    if data == [] then r.initial
    else
      var n := |data| - 1;
      var p := Fold(r, data[..n], s);
      if n in s then r.add(p, data[n]) else p
  }

  /** The sum of f over the records whose ids are in s. */
  ghost function SumOver<T>(f: T -> real, data: seq<T>, s: set<nat>): real
    decreases |data|
  {
    if data == [] then 0.0
    else
      var n := |data| - 1;
      SumOver(f, data[..n], s) + if n in s then f(data[n]) else 0.0
  }

  /** Reducing to a sum gives the sum. */
  lemma {:induction false} SumIsSum<T>(f: T -> real, data: seq<T>, s: set<nat>)
    ensures Fold(SumReducer(f), data, s) == SumOver(f, data, s)
    decreases |data|
  {
    if data != [] {
      SumIsSum(f, data[..|data| - 1], s);
    }
  }

  /** Only the ids of existing records matter. */
  lemma {:induction false} FoldAgrees<T, P>(r: Reducer<T, P>, data: seq<T>, s: set<nat>, t: set<nat>)
    requires forall i: nat :: i < |data| ==> (i in s <==> i in t)
    ensures Fold(r, data, s) == Fold(r, data, t)
    decreases |data|
  {
    if data != [] {
      FoldAgrees(r, data[..|data| - 1], s, t);
    }
  }

  /** The count of records is the number of their ids. */
  lemma {:induction false} CountIsSize<T(!new)>(data: seq<T>, s: set<nat>)
    requires forall r :: r in s ==> r < |data|
    ensures Fold(CountReducer(), data, s) == |s| as real
    decreases |data|
  {
    if data == [] {
      assert s == {};
    } else {
      var n := |data| - 1;
      CountIsSize(data[..n], s - {n});
      FoldAgrees(CountReducer<T>(), data[..n], s, s - {n});
    }
  }

  /** Adding one more record, wherever it stands among the others, adds it to the result. */
  lemma {:induction false} FoldInsert<T(!new), P(!new)>(r: Reducer<T, P>, data: seq<T>, s: set<nat>, j: nat)
    requires Lawful(r) && j < |data| && j !in s
    ensures Fold(r, data, s + {j}) == r.add(Fold(r, data, s), data[j])
    decreases |data|
  {
    var n := |data| - 1;
    var init := data[..n];
    if j == n {
      FoldAgrees(r, init, s + {j}, s);
    } else {
      FoldInsert(r, init, s, j);
      assert init[j] == data[j];
    }
  }

  lemma FoldDelete<T(!new), P(!new)>(r: Reducer<T, P>, data: seq<T>, s: set<nat>, j: nat)
    requires Lawful(r) && j < |data| && j in s
    ensures Fold(r, data, s - {j}) == r.remove(Fold(r, data, s), data[j])
  {
    FoldInsert(r, data, s - {j}, j);
    assert s - {j} + {j} == s;
  }

  lemma {:induction false} FoldEmpty<T, P>(r: Reducer<T, P>, data: seq<T>, s: set<nat>)
    requires forall i: nat :: i < |data| ==> i !in s
    ensures Fold(r, data, s) == r.initial
    decreases |data|
  {
    if data != [] {
      FoldEmpty(r, data[..|data| - 1], s);
    }
  }

  /** Records beyond the set do not matter. */
  lemma {:induction false} FoldPrefix<T, P>(r: Reducer<T, P>, data: seq<T>, n: nat, s: set<nat>)
    requires n <= |data| && forall i: nat :: n <= i < |data| ==> i !in s
    ensures Fold(r, data, s) == Fold(r, data[..n], s)
    decreases |data|
  {
    if n == |data| {
      assert data[..n] == data;
    } else {
      FoldPrefix(r, data[..|data| - 1], n, s);
      assert data[..|data| - 1][..n] == data[..n];
    }
  }
}
