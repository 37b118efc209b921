/** The lock that keeps a node's transitions apart: at most one of them, the newest started, runs its tweens. */
module Transitions {
  import opened Wrappers

  /** The transitions are found under their ids as long as they live. */
  datatype Lock = Lock(active: nat, count: nat, ids: map<nat, nat>)

  /** A transition that was made. Its delay and duration are those it had when its first timer ran. */
  datatype Transition = Transition(id: nat, lock: nat, delay: real, duration: real, ticks: nat, stops: nat)

  /** What a timer calls. */
  datatype Callback = Begin(of: nat) | Start(of: nat) | Tick(of: nat)

  /** All locks and transitions that were ever made for a node, the lock it has, and the timers. */
  datatype State = State(locks: seq<Lock>, current: Option<nat>, made: seq<Transition>, queue: seq<Callback>)

  const INITIAL := State([], None, [], [])

  /** References stay within bounds. */
  predicate WellFormed(s: State) {
    && (forall i :: 0 <= i < |s.made| ==> s.made[i].lock < |s.locks|)
    && (forall k :: 0 <= k < |s.queue| ==> s.queue[k].of < |s.made|)
    && (s.current.Some? ==> s.current.value < |s.locks|)
  }

  function LockOf(s: State, i: nat): Lock
    requires WellFormed(s) && i < |s.made|
  {
    s.locks[s.made[i].lock]
  }

  // ---------- Steps ----------

  /** A node without a lock gets one. */
  function Locked(s: State): (t: State)
    requires WellFormed(s)
    ensures WellFormed(t) && t.current.Some? && t.made == s.made && t.queue == s.queue
  {
    if s.current.Some? then s else s.(locks := s.locks + [Lock(0, 0, map[])], current := Some(|s.locks|))
  }

  /** A new transition counts for the lock, and has a timer. */
  function Added(s: State, id: nat): (t: State)
    requires WellFormed(s) && s.current.Some?
    ensures WellFormed(t) && t.queue == [Begin(|s.made|)] + s.queue
    ensures t.made == s.made + [Transition(id, s.current.value, 0.0, 1.0, 0, 0)]
  {
    var c, n := s.current.value, |s.made|;
    var lock := s.locks[c];
    State(
      s.locks[c := Lock(lock.active, lock.count + 1, lock.ids[id := n])], s.current,
      s.made + [Transition(id, c, 0.0, 1.0, 0, 0)], [Begin(n)] + s.queue)
  }

  /** `d3_transitionNode`. */
  function Create(s: State, id: nat): (t: State)
    requires WellFormed(s)
    ensures WellFormed(t) && |t.made| >= |s.made|
  {
    var u := Locked(s);
    if id in u.locks[u.current.value].ids then u else Added(u, id)
  }

  function CreateAll(s: State, ids: seq<nat>): (t: State)
    requires WellFormed(s)
    ensures WellFormed(t) && |t.made| >= |s.made|
  {
    if ids == [] then s else Create(CreateAll(s, ids[..|ids| - 1]), ids[|ids| - 1])
  }

  /** `stop`. */
  function Stop(s: State, i: nat): (t: State)
    requires WellFormed(s) && i < |s.made|
    ensures WellFormed(t) && |t.made| == |s.made|
  {
    var l, lock := s.made[i].lock, LockOf(s, i);
    var count := if lock.count > 0 then lock.count - 1 else 0;
    var u := s.(made := s.made[i := s.made[i].(stops := s.made[i].stops + 1)]);
    if count != 0 then u.(locks := s.locks[l := Lock(lock.active, count, lock.ids - {s.made[i].id})])
    else u.(locks := s.locks[l := lock.(count := count)], current := None)
  }

  function Ticked(s: State, i: nat): (t: State)
    requires WellFormed(s) && i < |s.made|
    ensures WellFormed(t) && t.locks == s.locks && t.queue == s.queue && |t.made| == |s.made|
  {
    s.(made := s.made[i := s.made[i].(ticks := s.made[i].ticks + 1)])
  }

  datatype Called = Called(state: State, done: bool)

  /** `tick`. The tweens and the listeners of the end event may make transitions. */
  function RunTick(s: State, i: nat, elapsed: real, tweened: seq<nat>, ended: seq<nat>): (r: Called)
    requires WellFormed(s) && i < |s.made|
    ensures WellFormed(r.state) && |r.state.made| >= |s.made|
  {
    var tr := s.made[i];
    if LockOf(s, i).active != tr.id then Called(Stop(s, i), true)
    else
      var ticked := CreateAll(Ticked(s, i), tweened);
      if elapsed >= tr.delay + tr.duration then Called(CreateAll(Stop(ticked, i), ended), true)
      else Called(ticked, false)
  }

  function Activate(s: State, i: nat): (t: State)
    requires WellFormed(s) && i < |s.made|
    ensures WellFormed(t) && t.made == s.made && t.queue == s.queue
  {
    s.(locks := s.locks[s.made[i].lock := LockOf(s, i).(active := s.made[i].id)])
  }

  /** `start`. Listeners of the start event and the tweens' factories may make transitions. */
  function RunStart(s: State, i: nat, elapsed: real, started: seq<nat>, tweened: seq<nat>, ended: seq<nat>): (t: State)
    requires WellFormed(s) && i < |s.made|
    ensures WellFormed(t) && |t.made| >= |s.made|
  {
    if LockOf(s, i).active > s.made[i].id then Stop(s, i)
    else
      var r := RunTick(CreateAll(Activate(s, i), started), i, elapsed, tweened, ended);
      if r.done then r.state else r.state.(queue := [Tick(i)] + r.state.queue)
  }

  /** What happens to the node: a transition is made, or the k-th timer is due. */
  datatype Event =
    | Make(id: nat)
    | Fire(k: nat, elapsed: real, delay: real, duration: real, started: seq<nat>, tweened: seq<nat>, ended: seq<nat>)

  function Without<A>(s: seq<A>, k: nat): seq<A>
    requires k < |s|
  {
    s[..k] + s[k + 1..]
  }

  /** A timer is removed once its callback says that it is done. The order of timers does not matter. */
  function FireTimer(s: State, e: Event): (t: State)
    requires WellFormed(s) && e.Fire? && e.k < |s.queue|
    ensures WellFormed(t) && |t.made| >= |s.made|
  {
    var callback := s.queue[e.k];
    var i := callback.of;
    var u := s.(queue := Without(s.queue, e.k));
    match callback
    case Begin(_) =>
      var v := u.(made := u.made[i := u.made[i].(delay := e.delay, duration := e.duration)]);
      if e.delay <= e.elapsed then RunStart(v, i, e.elapsed, e.started, e.tweened, e.ended)
      else v.(queue := [Start(i)] + v.queue)
    case Start(_) =>
      if s.made[i].delay <= e.elapsed then RunStart(u, i, e.elapsed, e.started, e.tweened, e.ended) else s
    case Tick(_) =>
      var r := RunTick(u, i, e.elapsed, e.tweened, e.ended);
      if r.done then r.state else r.state.(queue := [callback] + r.state.queue)
  }

  function Next(s: State, e: Event): (t: State)
    requires WellFormed(s)
    ensures WellFormed(t) && |t.made| >= |s.made|
  {
    match e
    case Make(id) => Create(s, id)
    case Fire(k, _, _, _, _, _, _) => if k < |s.queue| then FireTimer(s, e) else s
  }

  function Run(s: State, events: seq<Event>): (t: State)
    requires WellFormed(s)
    ensures WellFormed(t) && |t.made| >= |s.made|
  {
    if events == [] then s else Next(Run(s, events[..|events| - 1]), events[|events| - 1])
  }

  // ---------- What every run keeps ----------

  /** The live transitions that share a lock. */
  function OnLock(s: State, live: set<nat>, l: nat): set<nat> {
    set i | i in live && i < |s.made| && s.made[i].lock == l
  }

  /** The counts and the lock of the node are right if the transitions of live have not stopped. */
  predicate Counted(s: State, live: set<nat>)
    requires WellFormed(s)
  {
    && (forall i :: i in live ==> i < |s.made|)
    && (forall i :: 0 <= i < |s.made| ==> s.made[i].stops == if i in live then 0 else 1)
    && (forall l :: 0 <= l < |s.locks| ==> s.locks[l].count == |OnLock(s, live, l)|)
    && (forall l :: 0 <= l < |s.locks| ==> (s.current == Some(l) <==> s.locks[l].count > 0))
  }

  /** A lock with live transitions knows exactly them by their ids. */
  predicate Known(s: State, live: set<nat>)
    requires WellFormed(s)
  {
    && (forall i :: i in live && i < |s.made| ==>
      s.made[i].id in LockOf(s, i).ids && LockOf(s, i).ids[s.made[i].id] == i)
    && (forall l, id :: 0 <= l < |s.locks| && s.current == Some(l) && id in s.locks[l].ids ==>
         var i := s.locks[l].ids[id]; i in live && i < |s.made| && s.made[i].lock == l && s.made[i].id == id)
  }

  predicate Inv(s: State, live: set<nat>) {
    WellFormed(s) && Counted(s, live) && Known(s, live)
  }

  /** The transitions that have timers. */
  function Timed(queue: seq<Callback>): set<nat> {
    set k | 0 <= k < |queue| :: queue[k].of
  }

  predicate OneTimerEach(queue: seq<Callback>) {
    forall j, k :: 0 <= j < k < |queue| ==> queue[j].of != queue[k].of
  }

  /** The transitions with a timer are those that have not stopped, and each has one timer. */
  predicate Good(s: State) {
    Inv(s, Timed(s.queue)) && OneTimerEach(s.queue)
  }

  function Range(n: nat, m: nat): (r: set<nat>)
    ensures forall i :: i in r <==> n <= i < m
  {
    if m <= n then {} else Range(n, m - 1) + {m - 1}
  }

  /** The first timers of the transitions made from number n on. */
  function Begins(n: nat, m: nat): seq<Callback> {
    if m <= n then [] else [Begin(m - 1)] + Begins(n, m - 1)
  }

  // ---------- Making transitions ----------

  /** While a node is given a lock, the lock need not have a transition yet. */
  predicate CountedBut(s: State, live: set<nat>, c: nat)
    requires WellFormed(s)
  {
    && (forall i :: i in live ==> i < |s.made|)
    && (forall i :: 0 <= i < |s.made| ==> s.made[i].stops == if i in live then 0 else 1)
    && (forall l :: 0 <= l < |s.locks| ==> s.locks[l].count == |OnLock(s, live, l)|)
    && s.current == Some(c) && (forall l :: 0 <= l < |s.locks| && l != c ==> s.locks[l].count == 0)
  }

  lemma NoneOnNewLock(s: State, live: set<nat>)
    requires WellFormed(s)
    ensures OnLock(s, live, |s.locks|) == {}
  {
  }

  lemma LockedKeeps(s: State, live: set<nat>)
    requires Inv(s, live)
    ensures CountedBut(Locked(s), live, Locked(s).current.value) && Known(Locked(s), live)
  {
    hide OnLock;
    var t := Locked(s);
    NoneOnNewLock(s, live);
    forall l | 0 <= l < |t.locks| ensures OnLock(t, live, l) == OnLock(s, live, l) {
      SameOnLock(s, t, live, l);
    }
  }

  lemma SameOnLock(s: State, t: State, live: set<nat>, l: nat)
    requires |s.made| == |t.made| && forall i :: 0 <= i < |s.made| ==> s.made[i].lock == t.made[i].lock
    ensures OnLock(s, live, l) == OnLock(t, live, l)
  {
  }

  lemma NewOnLock(s: State, t: State, live: set<nat>, l: nat)
    requires |t.made| == |s.made| + 1 && t.made[..|s.made|] == s.made && forall i :: i in live ==> i < |s.made|
    ensures |OnLock(t, live + {|s.made|}, l)| == |OnLock(s, live, l)| + if t.made[|s.made|].lock == l then 1 else 0
  {
    var n, before, after := |s.made|, OnLock(s, live, l), OnLock(t, live + {|s.made|}, l);
    assert forall i :: 0 <= i < n ==> t.made[..n][i] == t.made[i];
    if t.made[n].lock == l {
      assert after == before + {n};
    } else {
      assert after == before;
    }
  }

  lemma AddedKeeps(s: State, live: set<nat>, id: nat)
    requires WellFormed(s) && s.current.Some? && CountedBut(s, live, s.current.value) && Known(s, live)
    requires id !in s.locks[s.current.value].ids
    ensures Inv(Added(s, id), live + {|s.made|})
  {
    hide OnLock;
    var t, c := Added(s, id), s.current.value;
    forall l | 0 <= l < |t.locks| ensures t.locks[l].count == |OnLock(t, live + {|s.made|}, l)| {
      NewOnLock(s, t, live, l);
    }
  }

  lemma CreateKeeps(s: State, live: set<nat>, id: nat)
    requires Inv(s, live)
    ensures var t := Create(s, id);
      Inv(t, live + Range(|s.made|, |t.made|)) && t.queue == Begins(|s.made|, |t.made|) + s.queue && s.made <= t.made
  {
    hide Counted, CountedBut, Known, Locked, Added;
    var u, t, n := Locked(s), Create(s, id), |s.made|;
    LockedKeeps(s, live);
    if id in u.locks[u.current.value].ids {
      assert live + Range(n, n) == live;
      HasLock(s, id, live);
    } else {
      assert Range(n, n + 1) == {n} && Begins(n, n + 1) == [Begin(n)];
      AddedKeeps(u, live, id);
    }
  }

  lemma HasLock(s: State, id: nat, live: set<nat>)
    requires WellFormed(s) && var u := Locked(s); id in u.locks[u.current.value].ids
    ensures Locked(s) == s
  {
  }

  lemma {:induction false} CreateAllKeeps(s: State, live: set<nat>, ids: seq<nat>)
    requires WellFormed(s) && Inv(s, live)
    ensures var t := CreateAll(s, ids);
      Inv(t, live + Range(|s.made|, |t.made|)) && t.queue == Begins(|s.made|, |t.made|) + s.queue && s.made <= t.made
  {
    hide Inv, WellFormed;
    if ids == [] {
      assert live + Range(|s.made|, |s.made|) == live;
    } else {
      var u, t := CreateAll(s, ids[..|ids| - 1]), CreateAll(s, ids);
      CreateAllKeeps(s, live, ids[..|ids| - 1]);
      CreateKeeps(u, live + Range(|s.made|, |u.made|), ids[|ids| - 1]);
      RangesJoin(|s.made|, |u.made|, |t.made|);
      assert live + Range(|s.made|, |u.made|) + Range(|u.made|, |t.made|) == live + Range(|s.made|, |t.made|);
    }
  }

  lemma {:induction false} RangesJoin(n: nat, m: nat, k: nat)
    requires n <= m <= k
    ensures Range(n, m) + Range(m, k) == Range(n, k) && Begins(m, k) + Begins(n, m) == Begins(n, k)
    decreases k
  {
    if m < k {
      RangesJoin(n, m, k - 1);
      assert [Begin(k - 1)] + (Begins(m, k - 1) + Begins(n, m)) == [Begin(k - 1)] + Begins(m, k - 1) + Begins(n, m);
    }
  }

  // ---------- Stopping and ticking ----------

  lemma StoppedOnLock(s: State, t: State, live: set<nat>, i: nat, l: nat)
    requires |s.made| == |t.made| && (forall j :: 0 <= j < |s.made| ==> s.made[j].lock == t.made[j].lock)
    requires i in live && i < |s.made|
    ensures |OnLock(t, live - {i}, l)| == |OnLock(s, live, l)| - if s.made[i].lock == l then 1 else 0
    ensures s.made[i].lock == l ==> |OnLock(s, live, l)| > 0
  {
    if s.made[i].lock == l {
      assert i in OnLock(s, live, l);
      assert OnLock(t, live - {i}, l) == OnLock(s, live, l) - {i};
    } else {
      assert OnLock(t, live - {i}, l) == OnLock(s, live, l);
    }
  }

  lemma StopCounted(s: State, live: set<nat>, i: nat)
    requires Inv(s, live) && i in live && i < |s.made|
    ensures Counted(Stop(s, i), live - {i})
  {
    hide OnLock, Known;
    var t := Stop(s, i);
    StoppedOnLock(s, t, live, i, s.made[i].lock);
    forall l | 0 <= l < |t.locks| ensures t.locks[l].count == |OnLock(t, live - {i}, l)| {
      StoppedOnLock(s, t, live, i, l);
    }
  }

  lemma StopKnown(s: State, live: set<nat>, i: nat)
    requires Inv(s, live) && i in live && i < |s.made|
    ensures Known(Stop(s, i), live - {i})
  {
    hide OnLock;
    var t, l := Stop(s, i), s.made[i].lock;
    StopCounted(s, live, i);
    if s.locks[l].count == 1 {
      forall j | j in live - {i} ensures s.made[j].lock != l {
        LastOnLock(s, live, l, i, j);
      }
    }
  }

  lemma LastOnLock(s: State, live: set<nat>, l: nat, i: nat, j: nat)
    requires |OnLock(s, live, l)| == 1 && i in live && j in live && i != j && i < |s.made| && j < |s.made|
      && s.made[i].lock == l
    ensures s.made[j].lock != l
  {
    if s.made[j].lock == l {
      assert {i, j} <= OnLock(s, live, l);
      SubsetSize({i, j}, OnLock(s, live, l));
    }
  }

  lemma {:induction false} SubsetSize(a: set<nat>, b: set<nat>)
    requires a <= b
    ensures |a| <= |b|
  {
    assert b == a + (b - a);
  }

  lemma StopKeeps(s: State, live: set<nat>, i: nat)
    requires Inv(s, live) && i in live && i < |s.made|
    ensures Inv(Stop(s, i), live - {i}) && Stop(s, i).queue == s.queue
  {
    StopCounted(s, live, i);
    StopKnown(s, live, i);
  }

  /** Neither ticks nor times matter for the locks. */
  lemma RetimedKeeps(s: State, live: set<nat>, i: nat, tr: Transition)
    requires Inv(s, live) && i < |s.made| && tr.id == s.made[i].id && tr.lock == s.made[i].lock
      && tr.stops == s.made[i].stops
    ensures Inv(s.(made := s.made[i := tr]), live)
  {
    hide OnLock;
    var t := s.(made := s.made[i := tr]);
    forall l | 0 <= l < |s.locks| ensures OnLock(t, live, l) == OnLock(s, live, l) {
      SameOnLock(s, t, live, l);
    }
  }

  lemma ActivateKeeps(s: State, live: set<nat>, i: nat)
    requires Inv(s, live) && i < |s.made|
    ensures Inv(Activate(s, i), live)
  {
    hide OnLock;
    var t := Activate(s, i);
    forall l | 0 <= l < |s.locks| ensures OnLock(t, live, l) == OnLock(s, live, l) {
      SameOnLock(s, t, live, l);
    }
  }

  lemma RequeuedKeeps(s: State, live: set<nat>, queue: seq<Callback>)
    requires Inv(s, live) && forall k :: 0 <= k < |queue| ==> queue[k].of < |s.made|
    ensures Inv(s.(queue := queue), live)
  {
    hide OnLock;
    var t := s.(queue := queue);
    forall l | 0 <= l < |s.locks| ensures OnLock(t, live, l) == OnLock(s, live, l) {
      SameOnLock(s, t, live, l);
    }
  }

  /** The transition whose timer runs lives on unless its callback stops it, and those made meanwhile live. */
  predicate Outcome(s: State, live: set<nat>, i: nat, t: State, done: bool) {
    && Inv(t, (if done then live - {i} else live) + Range(|s.made|, |t.made|))
    && t.queue == Begins(|s.made|, |t.made|) + s.queue && |s.made| <= |t.made|
  }

  lemma RunTickKeeps(s: State, live: set<nat>, i: nat, elapsed: real, tweened: seq<nat>, ended: seq<nat>)
    requires WellFormed(s) && Inv(s, live) && i in live && i < |s.made|
    ensures var r := RunTick(s, i, elapsed, tweened, ended); Outcome(s, live, i, r.state, r.done)
  {
    hide Inv, Stop, CreateAll;
    var n := |s.made|;
    assert live - {i} + Range(n, n) == live - {i};
    if LockOf(s, i).active != s.made[i].id {
      StopKeeps(s, live, i);
    } else {
      RetimedKeeps(s, live, i, s.made[i].(ticks := s.made[i].ticks + 1));
      var u := CreateAll(Ticked(s, i), tweened);
      CreateAllKeeps(Ticked(s, i), live, tweened);
      if elapsed >= s.made[i].delay + s.made[i].duration {
        var live1 := live + Range(n, |u.made|);
        var t := CreateAll(Stop(u, i), ended);
        StopKeeps(u, live1, i);
        CreateAllKeeps(Stop(u, i), live1 - {i}, ended);
        Joined(live, i, n, |u.made|, |t.made|);
        RangesJoin(n, |u.made|, |t.made|);
      }
    }
  }

  /** A transition that goes on after its start has a timer for its ticks. */
  lemma RunStartKeeps(s: State, live: set<nat>, i: nat, elapsed: real, started: seq<nat>, tweened: seq<nat>,
      ended: seq<nat>)
    returns (more: seq<Callback>)
    requires WellFormed(s) && Inv(s, live) && i in live && i < |s.made|
    ensures var t := RunStart(s, i, elapsed, started, tweened, ended);
      && (more == [] || more == [Tick(i)]) && |s.made| <= |t.made|
      && Inv(t, (if more == [] then live - {i} else live) + Range(|s.made|, |t.made|))
      && t.queue == more + Begins(|s.made|, |t.made|) + s.queue
  {
    hide Inv, Stop, CreateAll, RunTick;
    more := [];
    if LockOf(s, i).active > s.made[i].id {
      StopKeeps(s, live, i);
      assert live - {i} + Range(|s.made|, |s.made|) == live - {i};
    } else {
      ActivateKeeps(s, live, i);
      var u := CreateAll(Activate(s, i), started);
      CreateAllKeeps(Activate(s, i), live, started);
      var live1 := live + Range(|s.made|, |u.made|);
      RunTickKeeps(u, live1, i, elapsed, tweened, ended);
      var r := RunTick(u, i, elapsed, tweened, ended);
      RangesJoin(|s.made|, |u.made|, |r.state.made|);
      Joined(live, i, |s.made|, |u.made|, |r.state.made|);
      assert r.state.queue == Begins(|s.made|, |r.state.made|) + s.queue;
      if !r.done {
        more := [Tick(i)];
        var queue := [Tick(i)] + r.state.queue;
        assert forall k :: 0 <= k < |queue| ==> queue[k].of < |r.state.made|;
        RequeuedKeeps(r.state, live1 + Range(|u.made|, |r.state.made|), queue);
      }
    }
  }

  lemma Joined(live: set<nat>, i: nat, n: nat, m: nat, k: nat)
    requires i < n <= m <= k
    ensures live + Range(n, m) + Range(m, k) == live + Range(n, k)
    ensures live + Range(n, m) - {i} + Range(m, k) == live - {i} + Range(n, k)
  {
    RangesJoin(n, m, k);
    assert i !in Range(n, m);
  }

  lemma OneTimer(c: Callback)
    ensures OneTimerEach([c]) && Timed([c]) == {c.of} && Timed([]) == {}
  {
    assert [c][0].of in Timed([c]);
  }

  lemma FirstBegins(n: nat, m: nat)
    requires n < m
    ensures Begins(n, m) == [Begin(m - 1)] + Begins(n, m - 1) && Range(n, m) == {m - 1} + Range(n, m - 1)
      && {m - 1} !! Range(n, m - 1)
  {
  }

  lemma {:induction false} BeginsTimed(n: nat, m: nat)
    requires n <= m
    ensures OneTimerEach(Begins(n, m)) && Timed(Begins(n, m)) == Range(n, m)
  {
    if n >= m {
      NoTimers();
    } else {
      hide Timed, OneTimerEach, Begins, Range;
      FirstBegins(n, m);
      BeginsTimed(n, m - 1);
      OneTimer(Begin(m - 1));
      TimersAdded([Begin(m - 1)], Begins(n, m - 1));
    }
  }

  lemma TimersAdded(a: seq<Callback>, b: seq<Callback>)
    ensures Timed(a + b) == Timed(a) + Timed(b)
    ensures OneTimerEach(a) && OneTimerEach(b) && Timed(a) !! Timed(b) ==> OneTimerEach(a + b)
  {
    var c := a + b;
    forall k | 0 <= k < |c| ensures c[k].of in Timed(a) + Timed(b) {
      if k >= |a| { assert c[k] == b[k - |a|]; }
    }
    forall k | 0 <= k < |a| ensures a[k].of in Timed(c) {
      assert c[k] == a[k];
    }
    forall k | 0 <= k < |b| ensures b[k].of in Timed(c) {
      assert c[|a| + k] == b[k];
    }
  }

  lemma TimerTaken(queue: seq<Callback>, k: nat)
    requires k < |queue| && OneTimerEach(queue)
    ensures OneTimerEach(Without(queue, k)) && Timed(Without(queue, k)) == Timed(queue) - {queue[k].of}
  {
    var rest := Without(queue, k);
    forall j | 0 <= j < |rest| ensures rest[j] == queue[if j < k then j else j + 1] {
    }
    forall j | 0 <= j < |queue| && j != k ensures queue[j].of in Timed(rest) {
      assert rest[if j < k then j else j - 1] == queue[j];
    }
  }

  /** The timers after a callback: one for the transition itself if it goes on, and one for each new transition. */
  lemma QueueGood(more: seq<Callback>, n: nat, m: nat, queue: seq<Callback>, i: nat)
    requires n <= m && (more == [] || (|more| == 1 && more[0].of == i)) && OneTimerEach(queue)
    requires i !in Timed(queue) && i < n && forall j :: j in Timed(queue) ==> j < n
    ensures OneTimerEach(more + Begins(n, m) + queue)
    ensures Timed(more + Begins(n, m) + queue) == Timed(more) + Range(n, m) + Timed(queue)
    ensures Timed(more) == if more == [] then {} else {i}
  {
    hide Timed, OneTimerEach;
    BeginsTimed(n, m);
    OneTimer(Begin(i));
    if more != [] { assert more == [more[0]]; OneTimer(more[0]); } else { NoTimers(); }
    TimersAdded(more, Begins(n, m));
    TimersAdded(more + Begins(n, m), queue);
  }

  lemma NoTimers()
    ensures OneTimerEach([]) && Timed([]) == {}
  {
  }

  lemma TimersInRange(s: State)
    requires WellFormed(s)
    ensures forall j :: j in Timed(s.queue) ==> j < |s.made|
  {
  }

  /** A started transition, or one that stops, leaves the timers in order. */
  lemma StartedGood(s: State, live: set<nat>, i: nat, elapsed: real, started: seq<nat>, tweened: seq<nat>,
      ended: seq<nat>)
    requires Inv(s, live) && i in live && i < |s.made| && OneTimerEach(s.queue) && Timed(s.queue) == live - {i}
    ensures Good(RunStart(s, i, elapsed, started, tweened, ended))
  {
    hide Timed, OneTimerEach, Counted, Known, RunStart;
    var t := RunStart(s, i, elapsed, started, tweened, ended);
    var more := RunStartKeeps(s, live, i, elapsed, started, tweened, ended);
    TimersInRange(s);
    QueueGood(more, |s.made|, |t.made|, s.queue, i);
    assert Timed(t.queue) == (if more == [] then live - {i} else live) + Range(|s.made|, |t.made|);
  }

  lemma TickedGood(s: State, live: set<nat>, i: nat, elapsed: real, tweened: seq<nat>, ended: seq<nat>)
    requires Inv(s, live) && i in live && i < |s.made| && OneTimerEach(s.queue) && Timed(s.queue) == live - {i}
    requires RunTick(s, i, elapsed, tweened, ended).done
    ensures Good(RunTick(s, i, elapsed, tweened, ended).state)
  {
    hide Timed, OneTimerEach, Counted, Known, RunTick;
    var t := RunTick(s, i, elapsed, tweened, ended).state;
    RunTickKeeps(s, live, i, elapsed, tweened, ended);
    TimersInRange(s);
    QueueGood([], |s.made|, |t.made|, s.queue, i);
    assert [] + Begins(|s.made|, |t.made|) + s.queue == t.queue;
    assert Timed(t.queue) == live - {i} + Range(|s.made|, |t.made|);
  }

  lemma FireKeeps(s: State, e: Event)
    requires WellFormed(s) && Good(s) && e.Fire? && e.k < |s.queue|
    ensures Good(FireTimer(s, e))
  {
    hide Timed, OneTimerEach, Counted, Known, RunTick, RunStart;
    var i, live := s.queue[e.k].of, Timed(s.queue);
    var queue := Without(s.queue, e.k);
    var u := s.(queue := queue);
    TimerTaken(s.queue, e.k);
    Timers(s.queue, e.k);
    RequeuedKeeps(s, live, queue);
    match s.queue[e.k]
    case Begin(_) =>
      var v := u.(made := u.made[i := u.made[i].(delay := e.delay, duration := e.duration)]);
      RetimedKeeps(u, live, i, v.made[i]);
      if e.delay <= e.elapsed {
        StartedGood(v, live, i, e.elapsed, e.started, e.tweened, e.ended);
      } else {
        WaitingGood(v, live, i);
      }
    case Start(_) =>
      if s.made[i].delay <= e.elapsed {
        StartedGood(u, live, i, e.elapsed, e.started, e.tweened, e.ended);
      }
    case Tick(_) =>
      if RunTick(u, i, e.elapsed, e.tweened, e.ended).done {
        TickedGood(u, live, i, e.elapsed, e.tweened, e.ended);
      } else {
        TickingGood(u, live, i, e.elapsed, e.tweened, e.ended);
      }
  }

  lemma Timers(queue: seq<Callback>, k: nat)
    requires k < |queue|
    ensures queue[k].of in Timed(queue)
  {
  }

  lemma WaitingGood(s: State, live: set<nat>, i: nat)
    requires Inv(s, live) && i in live && i < |s.made| && OneTimerEach(s.queue) && Timed(s.queue) == live - {i}
    ensures Good(s.(queue := [Start(i)] + s.queue))
  {
    hide Timed, OneTimerEach, Counted, Known;
    OneTimer(Start(i));
    TimersAdded([Start(i)], s.queue);
    assert {i} + (live - {i}) == live;
    RequeuedKeeps(s, live, [Start(i)] + s.queue);
  }

  /** A tick that is not the last leaves the timer where it is. */
  lemma TickingGood(s: State, live: set<nat>, i: nat, elapsed: real, tweened: seq<nat>, ended: seq<nat>)
    requires Inv(s, live) && i in live && i < |s.made| && OneTimerEach(s.queue) && Timed(s.queue) == live - {i}
    requires !RunTick(s, i, elapsed, tweened, ended).done
    ensures var t := RunTick(s, i, elapsed, tweened, ended).state; Good(t.(queue := [Tick(i)] + t.queue))
  {
    hide Timed, OneTimerEach, Counted, Known, RunTick;
    var t := RunTick(s, i, elapsed, tweened, ended).state;
    var queue := [Tick(i)] + t.queue;
    RunTickKeeps(s, live, i, elapsed, tweened, ended);
    TimersInRange(s);
    QueueGood([Tick(i)], |s.made|, |t.made|, s.queue, i);
    assert queue == [Tick(i)] + Begins(|s.made|, |t.made|) + s.queue;
    assert Timed(queue) == live + Range(|s.made|, |t.made|);
    RequeuedKeeps(t, Timed(queue), queue);
  }

  lemma NextKeeps(s: State, e: Event)
    requires WellFormed(s) && Good(s)
    ensures Good(Next(s, e)) && NotEarly(s, Next(s, e), e)
  {
    hide Timed, OneTimerEach, Counted, Known, FireTimer, Create, NotEarly;
    NothingEarly(s, e);
    if e.Make? {
      var t := Create(s, e.id);
      CreateKeeps(s, Timed(s.queue), e.id);
      BeginsTimed(|s.made|, |t.made|);
      TimersInRange(s);
      TimersAdded(Begins(|s.made|, |t.made|), s.queue);
      assert Range(|s.made|, |t.made|) + Timed(s.queue) == Timed(s.queue) + Range(|s.made|, |t.made|);
    } else if e.k < |s.queue| {
      FireKeeps(s, e);
    }
  }

  lemma {:induction false} EveryRunGood(events: seq<Event>)
    ensures Good(Run(INITIAL, events))
  {
    if events == [] {
      NoTimers();
    } else {
      EveryRunGood(events[..|events| - 1]);
      NextKeeps(Run(INITIAL, events[..|events| - 1]), events[|events| - 1]);
    }
  }

  // ---------- What never happens later ----------

  /** A newer transition of the same lock has started. */
  predicate Superseded(s: State, i: nat)
    requires WellFormed(s) && i < |s.made|
  {
    LockOf(s, i).active > s.made[i].id
  }

  /** Transition i will not run its tweens again. */
  predicate Over(s: State, i: nat)
    requires WellFormed(s) && i < |s.made|
  {
    Superseded(s, i) || s.made[i].stops >= 1
  }

  /** No lock's active id decreases, and no transition that is over runs its tweens again. */
  predicate Later(s: State, t: State)
    requires WellFormed(s) && WellFormed(t)
  {
    && |s.locks| <= |t.locks| && |s.made| <= |t.made|
    && (forall l :: 0 <= l < |s.locks| ==> s.locks[l].active <= t.locks[l].active)
    && (forall i :: 0 <= i < |s.made| ==> s.made[i].id == t.made[i].id && s.made[i].lock == t.made[i].lock)
    && (forall i :: 0 <= i < |s.made| ==> s.made[i].stops <= t.made[i].stops && s.made[i].ticks <= t.made[i].ticks)
    && (forall i :: 0 <= i < |s.made| && Over(s, i) ==> t.made[i].ticks == s.made[i].ticks)
  }

  lemma LaterTransitive(s: State, t: State, u: State)
    requires WellFormed(s) && WellFormed(t) && WellFormed(u) && Later(s, t) && Later(t, u)
    ensures Later(s, u)
  {
    forall i | 0 <= i < |s.made| && Over(s, i) ensures u.made[i].ticks == s.made[i].ticks {
      assert Over(t, i);
    }
  }

  lemma CreateLater(s: State, id: nat)
    requires WellFormed(s)
    ensures Later(s, Create(s, id))
  {
  }

  lemma {:induction false} CreateAllLater(s: State, ids: seq<nat>)
    requires WellFormed(s)
    ensures Later(s, CreateAll(s, ids))
  {
    if ids != [] {
      hide Later, Create;
      var u := CreateAll(s, ids[..|ids| - 1]);
      CreateAllLater(s, ids[..|ids| - 1]);
      CreateLater(u, ids[|ids| - 1]);
      LaterTransitive(s, u, CreateAll(s, ids));
    } else {
      assert Later(s, s);
    }
  }

  lemma StopLater(s: State, i: nat)
    requires WellFormed(s) && i < |s.made|
    ensures Later(s, Stop(s, i))
  {
  }

  lemma TickedLater(s: State, i: nat)
    requires WellFormed(s) && i < |s.made| && s.made[i].stops == 0 && LockOf(s, i).active == s.made[i].id
    ensures Later(s, Ticked(s, i))
  {
  }

  /** A tick is run by a transition that is not over. */
  lemma RunTickLater(s: State, i: nat, elapsed: real, tweened: seq<nat>, ended: seq<nat>)
    requires WellFormed(s) && i < |s.made| && s.made[i].stops == 0
    ensures Later(s, RunTick(s, i, elapsed, tweened, ended).state)
  {
    if LockOf(s, i).active != s.made[i].id {
      StopLater(s, i);
    } else {
      hide Later, Stop, CreateAll, Ticked;
      var u := CreateAll(Ticked(s, i), tweened);
      TickedLater(s, i);
      CreateAllLater(Ticked(s, i), tweened);
      LaterTransitive(s, Ticked(s, i), u);
      if elapsed >= s.made[i].delay + s.made[i].duration {
        StopLater(u, i);
        CreateAllLater(Stop(u, i), ended);
        LaterTransitive(s, u, Stop(u, i));
        LaterTransitive(s, Stop(u, i), CreateAll(Stop(u, i), ended));
      }
    }
  }

  lemma ActivateLater(s: State, i: nat)
    requires WellFormed(s) && i < |s.made| && LockOf(s, i).active <= s.made[i].id
    ensures Later(s, Activate(s, i))
  {
  }

  /** Listeners do not stop a transition. */
  lemma {:induction false} CreateAllStops(s: State, ids: seq<nat>, i: nat)
    requires WellFormed(s) && i < |s.made|
    ensures CreateAll(s, ids).made[i] == s.made[i]
  {
    if ids != [] {
      CreateAllStops(s, ids[..|ids| - 1], i);
    }
  }

  lemma RunStartLater(s: State, i: nat, elapsed: real, started: seq<nat>, tweened: seq<nat>, ended: seq<nat>)
    requires WellFormed(s) && i < |s.made| && s.made[i].stops == 0
    ensures Later(s, RunStart(s, i, elapsed, started, tweened, ended))
  {
    if LockOf(s, i).active > s.made[i].id {
      StopLater(s, i);
    } else {
      hide RunTick, CreateAll;
      var u := CreateAll(Activate(s, i), started);
      ActivateLater(s, i);
      CreateAllLater(Activate(s, i), started);
      CreateAllStops(Activate(s, i), started, i);
      RunTickLater(u, i, elapsed, tweened, ended);
      var v := RunTick(u, i, elapsed, tweened, ended).state;
      assert Later(s, v) by {
        hide Later;
        LaterTransitive(s, Activate(s, i), u);
        LaterTransitive(s, u, v);
      }
    }
  }

  /** Times and timers do not matter for what comes later. */
  lemma RetimedLater(s: State, u: State, t: State)
    requires WellFormed(s) && WellFormed(u) && WellFormed(t) && s.locks == u.locks && |s.made| == |u.made|
    requires forall i :: 0 <= i < |s.made| ==>
      u.made[i] == s.made[i].(delay := u.made[i].delay, duration := u.made[i].duration)
    ensures Later(u, t) ==> Later(s, t)
  {
    if Later(u, t) {
      assert forall i :: 0 <= i < |s.made| && Over(s, i) ==> Over(u, i);
    }
  }

  lemma RequeuedLater(s: State, t: State, queue: seq<Callback>)
    requires WellFormed(s) && WellFormed(t) && forall k :: 0 <= k < |queue| ==> queue[k].of < |t.made|
    ensures Later(s, t) ==> Later(s, t.(queue := queue))
  {
  }

  lemma NextLater(s: State, e: Event)
    requires WellFormed(s) && Good(s)
    ensures Later(s, Next(s, e))
  {
    hide RunTick, RunStart, Known, Later, Create;
    LaterReflexive(s);
    if e.Make? {
      CreateLater(s, e.id);
    } else if e.k < |s.queue| {
      var i := s.queue[e.k].of;
      var u := s.(queue := Without(s.queue, e.k));
      Timers(s.queue, e.k);
      match s.queue[e.k]
      case Begin(_) =>
        var v := u.(made := u.made[i := u.made[i].(delay := e.delay, duration := e.duration)]);
        RunStartLater(v, i, e.elapsed, e.started, e.tweened, e.ended);
        RetimedLater(s, v, FireTimer(s, e));
        LaterReflexive(v);
        RequeuedLater(v, v, [Start(i)] + v.queue);
      case Start(_) =>
        RunStartLater(u, i, e.elapsed, e.started, e.tweened, e.ended);
        RetimedLater(s, u, FireTimer(s, e));
      case Tick(_) =>
        var t := RunTick(u, i, e.elapsed, e.tweened, e.ended).state;
        RunTickLater(u, i, e.elapsed, e.tweened, e.ended);
        RetimedLater(s, u, t);
        RequeuedLater(s, t, FireTimer(s, e).queue);
    }
  }

  lemma {:induction false} EveryRunLater(before: seq<Event>, after: seq<Event>)
    ensures Later(Run(INITIAL, before), Run(INITIAL, before + after))
  {
    hide Later, Good, Next;
    var s, n := Run(INITIAL, before), |after| - 1;
    if after == [] {
      assert before + after == before;
      LaterReflexive(s);
    } else {
      var t := Run(INITIAL, before + after[..n]);
      assert (before + after)[..|before + after| - 1] == before + after[..n];
      EveryRunLater(before, after[..n]);
      EveryRunGood(before + after[..n]);
      NextLater(t, after[n]);
      LaterTransitive(s, t, Next(t, after[n]));
    }
  }

  lemma LaterReflexive(s: State)
    requires WellFormed(s)
    ensures Later(s, s)
  {
  }

  function Unstopped(s: State): set<nat> {
    set i | 0 <= i < |s.made| && s.made[i].stops == 0
  }

  /** In every run, each transition stops at most once, the lock of the node counts those that have not, and
      the node has a lock exactly as long as there are any. */
  lemma LockDropped(events: seq<Event>)
    ensures var s := Run(INITIAL, events);
      && (forall i :: 0 <= i < |s.made| ==> s.made[i].stops <= 1)
      && (forall l :: 0 <= l < |s.locks| ==> s.locks[l].count == |OnLock(s, Unstopped(s), l)|)
      && (s.current.None? <==> Unstopped(s) == {})
  {
    hide Known, OnLock;
    EveryRunGood(events);
    var s := Run(INITIAL, events);
    var live := Timed(s.queue);
    assert live == Unstopped(s);
    CurrentIffLive(s);
  }

  lemma CurrentIffLive(s: State)
    requires WellFormed(s) && Good(s)
    ensures s.current.None? <==> Timed(s.queue) == {}
  {
    hide Known;
    var live := Timed(s.queue);
    assert forall i :: i in live ==> i in OnLock(s, live, s.made[i].lock);
    if s.current.Some? {
      var l := s.current.value;
      assert |OnLock(s, live, l)| > 0;
      assert OnLock(s, live, l) != {};
    }
  }

  lemma {:induction false} CreateAllActive(s: State, ids: seq<nat>, l: nat)
    requires WellFormed(s) && l < |s.locks|
    ensures var t := CreateAll(s, ids); l < |t.locks| && t.locks[l].active == s.locks[l].active
  {
    if ids != [] {
      CreateAllActive(s, ids[..|ids| - 1], l);
    }
  }

  /** A tick runs the tweens exactly if the transition is the one that is active. */
  lemma TickRuns(s: State, i: nat, elapsed: real, tweened: seq<nat>, ended: seq<nat>)
    requires WellFormed(s) && i < |s.made|
    ensures var r := RunTick(s, i, elapsed, tweened, ended);
      && r.state.made[i].ticks == s.made[i].ticks + (if LockOf(s, i).active == s.made[i].id then 1 else 0)
      && (r.done <==> LockOf(s, i).active != s.made[i].id || elapsed >= s.made[i].delay + s.made[i].duration)
      && r.state.made[i].stops == s.made[i].stops + (if r.done then 1 else 0)
  {
    var u := CreateAll(Ticked(s, i), tweened);
    CreateAllStops(Ticked(s, i), tweened, i);
    CreateAllStops(Stop(u, i), ended, i);
  }

  /** A transition that starts becomes the active one and runs its tweens at once, unless a newer one has started:
      then it stops without having run them. */
  lemma StartRuns(s: State, i: nat, elapsed: real, started: seq<nat>, tweened: seq<nat>, ended: seq<nat>)
    requires WellFormed(s) && i < |s.made|
    ensures var t := RunStart(s, i, elapsed, started, tweened, ended);
      t.made[i].ticks == s.made[i].ticks + (if Superseded(s, i) then 0 else 1)
      && (Superseded(s, i) ==> t.made[i].stops == s.made[i].stops + 1)
  {
    if !Superseded(s, i) {
      hide RunTick;
      CreateAllStops(Activate(s, i), started, i);
      CreateAllActive(Activate(s, i), started, s.made[i].lock);
      TickRuns(CreateAll(Activate(s, i), started), i, elapsed, tweened, ended);
    }
  }

  /** A transition whose time is up stops at its next tick. */
  lemma TimeUpStops(s: State, e: Event)
    requires WellFormed(s) && Good(s) && e.Fire? && e.k < |s.queue| && s.queue[e.k].Tick?
    requires e.elapsed >= s.made[s.queue[e.k].of].delay + s.made[s.queue[e.k].of].duration
    ensures Next(s, e).made[s.queue[e.k].of].stops == 1
  {
    hide Known, RunTick;
    Timers(s.queue, e.k);
    TickRuns(s.(queue := Without(s.queue, e.k)), s.queue[e.k].of, e.elapsed, e.tweened, e.ended);
  }

  // ---------- When transitions start ----------

  /** Transitions that have just been made have neither run tweens nor stopped. */
  predicate NewFrom(t: State, n: nat) {
    forall j :: n <= j < |t.made| ==> t.made[j].ticks == 0 && t.made[j].stops == 0
  }

  /** Timers have only been added for transitions made since. */
  predicate TimersFrom(s: State, t: State) {
    forall c :: c in t.queue ==> c in s.queue || (c.Begin? && c.of >= |s.made|)
  }

  lemma {:induction false} CreateAllNew(s: State, ids: seq<nat>)
    requires WellFormed(s)
    ensures NewFrom(CreateAll(s, ids), |s.made|) && TimersFrom(s, CreateAll(s, ids))
  {
    if ids != [] {
      CreateAllNew(s, ids[..|ids| - 1]);
    }
  }

  lemma CreateAllKeepsOthers(s: State, ids: seq<nat>)
    requires WellFormed(s)
    ensures var t := CreateAll(s, ids);
      && |s.locks| <= |t.locks| && (forall j :: 0 <= j < |s.made| ==> t.made[j] == s.made[j]) && NewFrom(t, |s.made|)
      && TimersFrom(s, t)
      && forall l :: 0 <= l < |s.locks| ==> t.locks[l].active == s.locks[l].active
  {
    hide CreateAll, NewFrom, TimersFrom;
    CreateAllLater(s, ids);
    CreateAllNew(s, ids);
    forall j | 0 <= j < |s.made| ensures CreateAll(s, ids).made[j] == s.made[j] {
      CreateAllStops(s, ids, j);
    }
    forall l | 0 <= l < |s.locks| ensures CreateAll(s, ids).locks[l].active == s.locks[l].active {
      CreateAllActive(s, ids, l);
    }
  }

  /** One transition may have run its tweens once more and stopped; the others are as they were. */
  predicate OnlyTicked(s: State, t: State, i: nat, ticks: nat, stops: nat)
    requires i < |s.made|
  {
    && |s.made| <= |t.made| && |s.locks| <= |t.locks| && NewFrom(t, |s.made|)
    && (forall j :: 0 <= j < |s.made| && j != i ==> t.made[j] == s.made[j])
    && t.made[i] == s.made[i].(ticks := s.made[i].ticks + ticks, stops := s.made[i].stops + stops)
  }

  lemma RunTickEffect(s: State, i: nat, elapsed: real, tweened: seq<nat>, ended: seq<nat>)
    requires WellFormed(s) && i < |s.made|
    ensures var r := RunTick(s, i, elapsed, tweened, ended); var now := LockOf(s, i).active == s.made[i].id;
      && OnlyTicked(s, r.state, i, if now then 1 else 0, if r.done then 1 else 0)
      && TimersFrom(s, r.state)
      && (r.done <==> !now || elapsed >= s.made[i].delay + s.made[i].duration)
      && forall l :: 0 <= l < |s.locks| ==> r.state.locks[l].active == s.locks[l].active
  {
    hide CreateAll;
    var u := CreateAll(Ticked(s, i), tweened);
    CreateAllKeepsOthers(Ticked(s, i), tweened);
    CreateAllKeepsOthers(Stop(u, i), ended);
  }

  lemma OnlyTickedAfter(s: State, u: State, t: State, i: nat, ticks: nat, stops: nat)
    requires i < |s.made| && OnlyTicked(s, u, i, 0, 0) && i < |u.made| && OnlyTicked(u, t, i, ticks, stops)
    ensures OnlyTicked(s, t, i, ticks, stops)
  {
  }

  lemma RunStartEffect(s: State, i: nat, elapsed: real, started: seq<nat>, tweened: seq<nat>, ended: seq<nat>)
    requires WellFormed(s) && i < |s.made|
    ensures var t := RunStart(s, i, elapsed, started, tweened, ended); var lock := s.made[i].lock;
      var done := Superseded(s, i) || elapsed >= s.made[i].delay + s.made[i].duration;
      && OnlyTicked(s, t, i, if Superseded(s, i) then 0 else 1, if done then 1 else 0)
      && (!done ==> Tick(i) in t.queue)
      && (forall c :: c in t.queue ==> c in s.queue || (c.Begin? && c.of >= |s.made|) || (c == Tick(i) && !done))
      && forall l :: 0 <= l < |s.locks| ==>
           t.locks[l].active == if l == lock && !Superseded(s, i) then s.made[i].id else s.locks[l].active
  {
    if !Superseded(s, i) {
      hide RunTick, CreateAll, OnlyTicked, NewFrom;
      var u := CreateAll(Activate(s, i), started);
      CreateAllKeepsOthers(Activate(s, i), started);
      RunTickEffect(u, i, elapsed, tweened, ended);
      SameOnly(s, u, i);
      var r := RunTick(u, i, elapsed, tweened, ended);
      var stops := if r.done then 1 else 0;
      OnlyTickedGrows(u, r.state, i, 1, stops);
      OnlyTickedAfter(s, u, r.state, i, 1, stops);
      OnlyRequeued(s, r.state, i, 1, stops, [Tick(i)] + r.state.queue);
    }
  }

  lemma SameOnly(s: State, u: State, i: nat)
    requires i < |s.made| && |s.made| <= |u.made| && |s.locks| <= |u.locks| && NewFrom(u, |s.made|)
    requires forall j :: 0 <= j < |s.made| ==> u.made[j] == s.made[j]
    ensures OnlyTicked(s, u, i, 0, 0)
  {
  }

  lemma OnlyTickedGrows(s: State, t: State, i: nat, ticks: nat, stops: nat)
    requires i < |s.made| && OnlyTicked(s, t, i, ticks, stops)
    ensures |s.made| <= |t.made| && |s.locks| <= |t.locks|
  {
  }

  lemma OnlyRequeued(s: State, t: State, i: nat, ticks: nat, stops: nat, queue: seq<Callback>)
    requires i < |s.made| && OnlyTicked(s, t, i, ticks, stops)
    ensures OnlyTicked(s, t.(queue := queue), i, ticks, stops)
  {
  }

  /** The event fires the timer of transition i. */
  predicate Fires(s: State, e: Event, i: nat) {
    e.Fire? && e.k < |s.queue| && s.queue[e.k].of == i
  }

  /** The event fires the timer of a transition that waits for its start. */
  predicate FiresWaiting(s: State, e: Event, i: nat) {
    Fires(s, e, i) && !s.queue[e.k].Tick?
  }

  /** Only the first timer sets the times of a transition. */
  predicate TimesKept(s: State, t: State, e: Event)
    requires |s.made| <= |t.made|
  {
    forall i :: 0 <= i < |s.made| && !(Fires(s, e, i) && s.queue[e.k].Begin?) ==>
      t.made[i].delay == s.made[i].delay && t.made[i].duration == s.made[i].duration
  }

  /** An event that fires a waiting transition's timer at or after its delay runs its tweens, unless a newer one has
      started, and then it stops. One that fires earlier leaves it waiting, with one timer. */
  lemma StartsWhenDue(s: State, e: Event, i: nat)
    requires WellFormed(s) && Good(s) && FiresWaiting(s, e, i) && i < |s.made|
    ensures var t := Next(s, e); var tr, was := t.made[i], s.made[i];
      && Good(t) && (s.queue[e.k].Begin? ==> tr.delay == e.delay && tr.duration == e.duration)
      && (e.elapsed < tr.delay ==>
           tr.ticks == was.ticks && tr.stops == 0 && Start(i) in t.queue && t.locks == s.locks)
      && (e.elapsed >= tr.delay && Superseded(s, i) ==> tr.ticks == was.ticks && tr.stops == 1)
      && (e.elapsed >= tr.delay && !Superseded(s, i) ==>
           tr.ticks == was.ticks + 1 && (tr.stops == 1 <==> e.elapsed >= tr.delay + tr.duration)
             && (tr.stops == 0 ==> Tick(i) in t.queue))
  {
    hide Known, RunStart;
    NextKeeps(s, e);
    Timers(s.queue, e.k);
    var u := s.(queue := Without(s.queue, e.k));
    var v := u.(made := u.made[i := u.made[i].(delay := e.delay, duration := e.duration)]);
    RunStartEffect(u, i, e.elapsed, e.started, e.tweened, e.ended);
    RunStartEffect(v, i, e.elapsed, e.started, e.tweened, e.ended);
  }

  /** A later timer runs the tweens of the active transition, and stops one whose time is up or that is not active. */
  lemma TicksWhenActive(s: State, e: Event, i: nat)
    requires WellFormed(s) && Good(s) && Fires(s, e, i) && s.queue[e.k].Tick? && i < |s.made|
    ensures var t := Next(s, e); var tr, was, active := t.made[i], s.made[i], LockOf(s, i).active == s.made[i].id;
      && Good(t) && tr.ticks == was.ticks + (if active then 1 else 0)
      && (tr.stops == 1 <==> !active || e.elapsed >= was.delay + was.duration)
      && (tr.stops == 0 ==> Tick(i) in t.queue)
  {
    hide Known, RunTick;
    NextKeeps(s, e);
    Timers(s.queue, e.k);
    RunTickEffect(s.(queue := Without(s.queue, e.k)), i, e.elapsed, e.tweened, e.ended);
  }

  /** Only the transition whose timer fires, if any, is affected, and it neither runs its tweens nor becomes the active
      one of its lock before its delay. */
  predicate NotEarly(s: State, t: State, e: Event) {
    && |s.locks| <= |t.locks| && |s.made| <= |t.made| && NewFrom(t, |s.made|) && TimesKept(s, t, e)
    && (forall i :: 0 <= i < |s.made| && t.made[i].ticks != s.made[i].ticks ==>
         Fires(s, e, i) && t.made[i].ticks == s.made[i].ticks + 1
           && (FiresWaiting(s, e, i) ==> e.elapsed >= t.made[i].delay))
    && (forall i :: 0 <= i < |s.made| && t.made[i].stops != s.made[i].stops ==> Fires(s, e, i))
    && forall l :: 0 <= l < |s.locks| && t.locks[l].active != s.locks[l].active ==> exists i ::
         && 0 <= i < |s.made| && FiresWaiting(s, e, i) && s.made[i].lock == l
         && t.locks[l].active == s.made[i].id && e.elapsed >= t.made[i].delay
  }

  lemma NothingEarly(s: State, e: Event)
    requires WellFormed(s) && Good(s)
    ensures NotEarly(s, Next(s, e), e)
  {
    hide Known, Counted, RunStart, RunTick, Create, NotEarly, FireTimer, OneTimerEach;
    if e.Make? {
      CreateNotEarly(s, e);
    } else if e.k < |s.queue| {
      Timers(s.queue, e.k);
      match s.queue[e.k]
      case Begin(i) => BeginNotEarly(s, e, i);
      case Start(i) => StartNotEarly(s, e, i);
      case Tick(i) => TickNotEarly(s, e, i);
    } else {
      IdleNotEarly(s, e);
    }
  }

  lemma IdleNotEarly(s: State, e: Event)
    requires WellFormed(s)
    ensures NotEarly(s, s, e)
  {
  }

  lemma BeginNotEarly(s: State, e: Event, i: nat)
    requires WellFormed(s) && Fires(s, e, i) && s.queue[e.k].Begin? && i < |s.made|
    ensures NotEarly(s, FireTimer(s, e), e)
  {
    hide RunStart;
    var u := s.(queue := Without(s.queue, e.k));
    var v := u.(made := u.made[i := u.made[i].(delay := e.delay, duration := e.duration)]);
    RunStartEffect(v, i, e.elapsed, e.started, e.tweened, e.ended);
  }

  lemma StartNotEarly(s: State, e: Event, i: nat)
    requires WellFormed(s) && Fires(s, e, i) && s.queue[e.k].Start? && i < |s.made|
    ensures NotEarly(s, FireTimer(s, e), e)
  {
    hide RunStart;
    RunStartEffect(s.(queue := Without(s.queue, e.k)), i, e.elapsed, e.started, e.tweened, e.ended);
  }

  lemma TickNotEarly(s: State, e: Event, i: nat)
    requires WellFormed(s) && Fires(s, e, i) && s.queue[e.k].Tick? && i < |s.made|
    ensures NotEarly(s, FireTimer(s, e), e)
  {
    hide RunTick;
    RunTickEffect(s.(queue := Without(s.queue, e.k)), i, e.elapsed, e.tweened, e.ended);
  }

  lemma CreateOne(s: State, id: nat)
    requires WellFormed(s)
    ensures CreateAll(s, [id]) == Create(s, id)
  {
    hide Create;
    assert [id][..0] == [];
  }

  lemma CreateNotEarly(s: State, e: Event)
    requires WellFormed(s) && e.Make?
    ensures NotEarly(s, Create(s, e.id), e)
  {
    hide Create;
    CreateOne(s, e.id);
    CreateAllKeepsOthers(s, [e.id]);
  }

  // ---------- Over whole runs ----------

  /** A transition that waits has not run its tweens, and one that ticks has. */
  predicate Staged(s: State)
    requires WellFormed(s)
  {
    forall k :: 0 <= k < |s.queue| ==> (s.queue[k].Tick? <==> s.made[s.queue[k].of].ticks > 0)
  }

  /** Where timers come from: those there were, those of new transitions, and the one of the transition that fires. */
  predicate TimersAfter(s: State, t: State, e: Event) {
    forall c :: c in t.queue ==>
      (c in s.queue && !Fires(s, e, c.of)) || (c.Begin? && c.of >= |s.made|)
        || (Fires(s, e, c.of) && c.of < |s.made| && c.of < |t.made|
          && (if c.Tick? then t.made[c.of].ticks > s.made[c.of].ticks || s.queue[e.k].Tick?
              else t.made[c.of].ticks == s.made[c.of].ticks && !s.queue[e.k].Tick?))
  }

  lemma OthersRemain(queue: seq<Callback>, k: nat)
    requires OneTimerEach(queue) && k < |queue|
    ensures forall c :: c in Without(queue, k) ==> c in queue && c.of != queue[k].of
  {
  }

  lemma TimersComeFrom(s: State, e: Event)
    requires WellFormed(s) && Good(s)
    ensures TimersAfter(s, Next(s, e), e)
  {
    hide Known, Counted, RunStart, RunTick, Create, CreateAll, Timed;
    if e.Make? {
      CreateAllNew(s, [e.id]);
      CreateOne(s, e.id);
    } else if e.k < |s.queue| {
      var i := s.queue[e.k].of;
      var u := s.(queue := Without(s.queue, e.k));
      Timers(s.queue, e.k);
      OthersRemain(s.queue, e.k);
      match s.queue[e.k]
      case Begin(_) =>
        var v := u.(made := u.made[i := u.made[i].(delay := e.delay, duration := e.duration)]);
        RunStartEffect(v, i, e.elapsed, e.started, e.tweened, e.ended);
      case Start(_) =>
        RunStartEffect(u, i, e.elapsed, e.started, e.tweened, e.ended);
      case Tick(_) =>
        RunTickEffect(u, i, e.elapsed, e.tweened, e.ended);
    }
  }

  lemma StagedNext(s: State, e: Event)
    requires WellFormed(s) && Good(s) && Staged(s)
    ensures Staged(Next(s, e))
  {
    hide Known, Counted, Next;
    var t := Next(s, e);
    TimersComeFrom(s, e);
    NothingEarly(s, e);
    forall k | 0 <= k < |t.queue| ensures t.queue[k].Tick? <==> t.made[t.queue[k].of].ticks > 0 {
      var c := t.queue[k];
      assert c in t.queue;
    }
  }

  lemma {:induction false} EveryRunStaged(events: seq<Event>)
    ensures Staged(Run(INITIAL, events))
  {
    if events != [] {
      hide Staged, Next, Good;
      EveryRunGood(events[..|events| - 1]);
      EveryRunStaged(events[..|events| - 1]);
      StagedNext(Run(INITIAL, events[..|events| - 1]), events[|events| - 1]);
    }
  }

  /** In every run, a transition that has run its tweens was started by an event no earlier than its delay. */
  lemma {:induction false} StartedWhenDue(events: seq<Event>, i: nat) returns (j: nat)
    requires i < |Run(INITIAL, events).made| && Run(INITIAL, events).made[i].ticks > 0
    ensures j < |events| && FiresWaiting(Run(INITIAL, events[..j]), events[j], i)
    ensures events[j].elapsed >= Run(INITIAL, events).made[i].delay
  {
    hide Known, Counted, Next, Staged, Good;
    var n := |events| - 1;
    var s, e := Run(INITIAL, events[..n]), events[n];
    EveryRunGood(events[..n]);
    EveryRunStaged(events[..n]);
    NothingEarly(s, e);
    if i < |s.made| && s.made[i].ticks > 0 {
      j := StartedWhenDue(events[..n], i);
      assert events[..n][..j] == events[..j];
      TimesAreKept(s, e, i);
    } else {
      j := n;
      FirstTickWaits(s, e, i);
    }
  }

  lemma TimesAreKept(s: State, e: Event, i: nat)
    requires WellFormed(s) && Staged(s) && i < |s.made| && s.made[i].ticks > 0 && |s.made| <= |Next(s, e).made|
    requires TimesKept(s, Next(s, e), e)
    ensures Next(s, e).made[i].delay == s.made[i].delay
  {
    hide Next;
  }

  lemma FirstTickWaits(s: State, e: Event, i: nat)
    requires WellFormed(s) && Staged(s) && NotEarly(s, Next(s, e), e) && i < |Next(s, e).made|
    requires Next(s, e).made[i].ticks > 0 && (i < |s.made| ==> s.made[i].ticks == 0)
    ensures FiresWaiting(s, e, i) && e.elapsed >= Next(s, e).made[i].delay
  {
    hide Next;
  }
}
