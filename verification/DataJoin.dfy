/** Joining data to a group of nodes: which nodes are updated, entered and removed. */
module DataJoin {
  import opened Wrappers

  class Node<D> {
    var data: D

    constructor (data: D)
      ensures this.data == data
    {
      this.data := data;
    }
  }

  /** Reading the datum of a missing node throws. */
  datatype Join<D> = Joined(update: seq<Node?<D>>, enter: seq<Option<D>>, exit: seq<Node?<D>>) | TypeError

  /** Where a key first occurs, or the length if it does not. */
  function FirstAt(keys: seq<string>, k: string): (i: nat)
    ensures i <= |keys| && (i < |keys| ==> keys[i] == k) && forall j :: 0 <= j < i ==> keys[j] != k
  {
    if keys == [] then 0 else
    var n := |keys| - 1;
    var i := FirstAt(keys[..n], k);
    if i < n then i else if keys[n] == k then n else n + 1
  }

  // ---------- The join by key ----------

  predicate Updates(nodeKeys: seq<string>, dataKeys: seq<string>, j: nat)
    requires j < |dataKeys|
  {
    FirstAt(dataKeys, dataKeys[j]) == j && dataKeys[j] in nodeKeys
  }

  predicate Enters(nodeKeys: seq<string>, dataKeys: seq<string>, j: nat)
    requires j < |dataKeys|
  {
    FirstAt(dataKeys, dataKeys[j]) == j && dataKeys[j] !in nodeKeys
  }

  predicate Exits(nodeKeys: seq<string>, dataKeys: seq<string>, i: nat)
    requires i < |nodeKeys|
  {
    FirstAt(nodeKeys, nodeKeys[i]) < i || nodeKeys[i] !in dataKeys
  }

  /** The node that datum j updates. */
  function Match(nodeKeys: seq<string>, dataKeys: seq<string>, j: nat): (i: nat)
    requires j < |dataKeys| && Updates(nodeKeys, dataKeys, j)
    ensures i < |nodeKeys| && nodeKeys[i] == dataKeys[j] && forall p :: 0 <= p < i ==> nodeKeys[p] != dataKeys[j]
  {
    FirstAt(nodeKeys, dataKeys[j])
  }

  /** Every node is either removed or updated by exactly one datum, which has its key. */
  lemma EachNodeOnce(nodeKeys: seq<string>, dataKeys: seq<string>, i: nat)
    requires i < |nodeKeys|
    ensures Exits(nodeKeys, dataKeys, i) <==> nodeKeys[i] in nodeKeys[..i] || nodeKeys[i] !in dataKeys
    ensures Exits(nodeKeys, dataKeys, i) <==>
      !exists j: nat :: j < |dataKeys| && Updates(nodeKeys, dataKeys, j) && Match(nodeKeys, dataKeys, j) == i
    ensures forall j: nat, k: nat ::
      (j < |dataKeys| && k < |dataKeys| && Updates(nodeKeys, dataKeys, j) && Updates(nodeKeys, dataKeys, k)
       && Match(nodeKeys, dataKeys, j) == i == Match(nodeKeys, dataKeys, k)) ==> j == k
  {
    var f := FirstAt(nodeKeys, nodeKeys[i]);
    if f < i { assert nodeKeys[..i][f] == nodeKeys[i]; }
    if !Exits(nodeKeys, dataKeys, i) {
      var j := FirstAt(dataKeys, nodeKeys[i]);
      assert j < |dataKeys|;
      assert Updates(nodeKeys, dataKeys, j) && Match(nodeKeys, dataKeys, j) == i;
    }
  }

  /** The first datum of each key is either entered or updates a node; later ones do neither. */
  lemma EachDatumOnce(nodeKeys: seq<string>, dataKeys: seq<string>, j: nat)
    requires j < |dataKeys|
    ensures Updates(nodeKeys, dataKeys, j) || Enters(nodeKeys, dataKeys, j) <==> dataKeys[j] !in dataKeys[..j]
    ensures !(Updates(nodeKeys, dataKeys, j) && Enters(nodeKeys, dataKeys, j))
  {
    var i := FirstAt(dataKeys, dataKeys[j]);
    assert i < j ==> dataKeys[..j][i] == dataKeys[j];
  }

  /** What the join by key does with the nodes. */
  ghost predicate JoinsByKey<D>(group: seq<Node?<D>>, data: seq<D>, nodeKeys: seq<string>, dataKeys: seq<string>,
      r: Join<D>)
    requires |nodeKeys| == |group| && |dataKeys| == |data|
  {
    && r.Joined? && |r.update| == |r.enter| == |data| && |r.exit| == |group|
    && (forall j :: 0 <= j < |data| ==>
         r.update[j] == if Updates(nodeKeys, dataKeys, j) then group[Match(nodeKeys, dataKeys, j)] else null)
    && (forall j :: 0 <= j < |data| ==>
         r.enter[j] == if Enters(nodeKeys, dataKeys, j) then Some(data[j]) else None)
    && (forall i :: 0 <= i < |group| ==>
         r.exit[i] == if Exits(nodeKeys, dataKeys, i) then group[i] else null)
  }

  /** The keys of the nodes, by the data that they hold. */
  ghost predicate NodeKeys<D>(group: seq<Node?<D>>, key: (D, nat) -> string, keys: seq<string>)
    reads group
  {
    |keys| <= |group| && forall i :: 0 <= i < |keys| ==> group[i] != null && keys[i] == key(group[i].data, i)
  }

  ghost predicate DataKeys<D>(data: seq<D>, key: (D, nat) -> string, keys: seq<string>) {
    |keys| == |data| && forall i :: 0 <= i < |keys| ==> keys[i] == key(data[i], i)
  }

  /** The nodes by the keys of which they are the first. */
  ghost predicate Indexes<D>(byKey: map<string, Node<D>>, group: seq<Node?<D>>, keys: seq<string>) {
    && |keys| <= |group|
    && (forall k :: k in byKey <==> k in keys)
    && (forall k :: k in keys ==> byKey[k] == group[FirstAt(keys, k)])
  }

  /** The nodes after the first of each key. */
  ghost predicate Repeats<D>(exit: seq<Node?<D>>, group: seq<Node?<D>>, keys: seq<string>) {
    |exit| == |group| && forall i :: 0 <= i < |group| ==>
      exit[i] == if i < |keys| && FirstAt(keys, keys[i]) < i then group[i] else null
  }

  lemma FirstAfter(keys: seq<string>, k: string, x: string)
    ensures FirstAt(keys + [k], x) == if x in keys then FirstAt(keys, x) else if x == k then |keys| else |keys| + 1
  {
    assert (keys + [k])[..|keys|] == keys;
  }

  lemma IndexedAfter<D>(byKey: map<string, Node<D>>, exit: seq<Node?<D>>, group: seq<Node?<D>>, keys: seq<string>,
      node: Node<D>, k: string)
    requires Indexes(byKey, group, keys) && Repeats(exit, group, keys) && |keys| < |group| && group[|keys|] == node
    ensures Indexes(if k in byKey then byKey else byKey[k := node], group, keys + [k])
    ensures Repeats(if k in byKey then exit[|keys| := node] else exit, group, keys + [k])
  {
    hide FirstAt;
    var all := keys + [k];
    forall x ensures FirstAt(all, x) == if x in keys then FirstAt(keys, x) else if x == k then |keys| else |keys| + 1 {
      FirstAfter(keys, k, x);
    }
    assert forall i :: 0 <= i < |keys| ==> all[i] == keys[i] && keys[i] in keys;
  }

  /** The first loop: the first node of each key is found by it, the others go. */
  method IndexNodes<D>(group: seq<Node?<D>>, key: (D, nat) -> string)
    returns (ok: bool, byKey: map<string, Node<D>>, exit: seq<Node?<D>>, keys: seq<string>)
    ensures ok <==> null !in group
    ensures ok ==>
      |keys| == |group| && NodeKeys(group, key, keys) && Indexes(byKey, group, keys) && Repeats(exit, group, keys)
  {
    hide Indexes, Repeats;
    byKey, exit, keys := map[], seq(|group|, _ => null), [];
    NothingIndexed(group, exit);
    for i := 0 to |group|
      invariant |keys| == i && |exit| == |group| && null !in group[..i]
      invariant NodeKeys(group, key, keys) && Indexes(byKey, group, keys) && Repeats(exit, group, keys)
    {
      var node := group[i];
      if node == null {
        return false, byKey, exit, keys;
      }
      var k := key(node.data, i);
      IndexedAfter(byKey, exit, group, keys, node, k);
      if k in byKey {
        exit := exit[i := node];
      } else {
        byKey := byKey[k := node];
      }
      keys := keys + [k];
    }
    assert group[..|group|] == group;
    ok := true;
  }

  lemma NothingIndexed<D>(group: seq<Node?<D>>, exit: seq<Node?<D>>)
    requires |exit| == |group| && forall i :: 0 <= i < |group| ==> exit[i] == null
    ensures Indexes(map[], group, []) && Repeats(exit, group, [])
  {
  }

  // ---------- The second loop ----------

  /** The nodes still found by their keys once some data have been joined. */
  ghost predicate Left<D>(byKey: map<string, Node<D>>, group: seq<Node?<D>>, nodeKeys: seq<string>, seen: seq<string>) {
    && |nodeKeys| == |group|
    && (forall k :: k in byKey <==> k in nodeKeys && k !in seen)
    && (forall k :: k in byKey ==> byKey[k] == group[FirstAt(nodeKeys, k)])
  }

  /** Where the data have gone, up to number n. */
  ghost predicate Placed<D>(group: seq<Node?<D>>, data: seq<D>, nodeKeys: seq<string>, dataKeys: seq<string>, n: nat,
                            update: seq<Node?<D>>, enter: seq<Option<D>>)
    requires n <= |dataKeys| == |data| && |nodeKeys| == |group|
  {
    && |update| == |enter| == |data|
    && (forall j :: 0 <= j < |data| ==>
         update[j] == if j < n && Updates(nodeKeys, dataKeys, j) then group[Match(nodeKeys, dataKeys, j)] else null)
    && (forall j :: 0 <= j < |data| ==>
         enter[j] == if j < n && Enters(nodeKeys, dataKeys, j) then Some(data[j]) else None)
  }

  /** Updated nodes hold their new data. */
  ghost predicate Updated<D>(update: seq<Node?<D>>, data: seq<D>)
    reads update
  {
    |update| <= |data| && forall j :: 0 <= j < |update| && update[j] != null ==> update[j].data == data[j]
  }

  lemma PlacedNext<D>(group: seq<Node?<D>>, data: seq<D>, nodeKeys: seq<string>, dataKeys: seq<string>, n: nat,
                      update: seq<Node?<D>>, enter: seq<Option<D>>, byKey: map<string, Node<D>>)
    requires n < |dataKeys| == |data| && |nodeKeys| == |group|
    requires Placed(group, data, nodeKeys, dataKeys, n, update, enter) && Left(byKey, group, nodeKeys, dataKeys[..n])
    ensures var k := dataKeys[n];
      var update' := if k in byKey then update[n := byKey[k]] else update;
      var enter' := if k !in byKey && k !in dataKeys[..n] then enter[n := Some(data[n])] else enter;
      Placed(group, data, nodeKeys, dataKeys, n + 1, update', enter')
  {
    EachDatumOnce(nodeKeys, dataKeys, n);
    hide FirstAt;
  }

  lemma LeftNext<D>(group: seq<Node?<D>>, nodeKeys: seq<string>, dataKeys: seq<string>, n: nat, byKey: map<string,
      Node<D>>)
    requires n < |dataKeys| && Left(byKey, group, nodeKeys, dataKeys[..n])
    ensures Left(byKey - {dataKeys[n]}, group, nodeKeys, dataKeys[..n + 1])
  {
    hide FirstAt;
    assert dataKeys[..n + 1] == dataKeys[..n] + [dataKeys[n]];
  }

  lemma MatchedInGroup<D>(byKey: map<string, Node<D>>, group: seq<Node?<D>>, nodeKeys: seq<string>, seen: seq<string>,
      k: string)
    requires Left(byKey, group, nodeKeys, seen) && k in byKey
    ensures FirstAt(nodeKeys, k) < |group| && byKey[k] == group[FirstAt(nodeKeys, k)]
  {
  }

  /** The node of a new key is not one that has been updated, if no node is in the group twice. */
  lemma NotUpdatedYet<D>(group: seq<Node?<D>>, data: seq<D>, nodeKeys: seq<string>, dataKeys: seq<string>, n: nat,
                         update: seq<Node?<D>>, enter: seq<Option<D>>, byKey: map<string, Node<D>>, j: nat)
    requires n < |dataKeys| == |data| && |nodeKeys| == |group| && j < n
    requires Placed(group, data, nodeKeys, dataKeys, n, update, enter) && Left(byKey, group, nodeKeys, dataKeys[..n])
    requires dataKeys[n] in byKey && Distinct(group)
    ensures update[j] != byKey[dataKeys[n]]
  {
    hide FirstAt;
    assert dataKeys[..n][j] == dataKeys[j];
  }

  /** No node is in the group twice. */
  ghost predicate Distinct<D>(group: seq<Node?<D>>) {
    forall i, j :: 0 <= i < j < |group| && group[i] != null ==> group[i] != group[j]
  }

  lemma StillUpdated<D>(update: seq<Node?<D>>, n: nat, node: Node?<D>)
    requires n < |update| && update[n] == null
    ensures forall g :: g != null && g in update ==> g in update[n := node]
    ensures node in update[n := node]
  {
    forall g | g != null && g in update ensures g in update[n := node] {
      var j :| 0 <= j < |update| && update[j] == g;
      assert update[n := node][j] == g;
    }
    assert update[n := node][n] == node;
  }

  /** A datum updates the node with its key, or is entered if it is the first with its key. */
  method JoinDatum<D>(datum: D, k: string, byKey: map<string, Node<D>>, seen: map<string, D>, n: nat,
      update0: seq<Node?<D>>, enter0: seq<Option<D>>)
    returns (update: seq<Node?<D>>, enter: seq<Option<D>>)
    requires n < |update0| == |enter0|
    modifies if k in byKey then {byKey[k]} else {}
    ensures update == if k in byKey then update0[n := byKey[k]] else update0
    ensures enter == if k !in byKey && k !in seen then enter0[n := Some(datum)] else enter0
    ensures k in byKey ==> byKey[k].data == datum
  {
    update, enter := update0, enter0;
    if k in byKey {
      var node := byKey[k];
      update := update[n := node];
      node.data := datum;
    } else if k !in seen {
      enter := enter[n := Some(datum)];
    }
  }

  /** The second loop: each datum is joined to the node with its key. */
  method JoinData<D>(group: seq<Node?<D>>, data: seq<D>, key: (D, nat) -> string, byKey0: map<string, Node<D>>,
      ghost nodeKeys: seq<string>)
    returns (update: seq<Node?<D>>, enter: seq<Option<D>>, byKey: map<string, Node<D>>, ghost dataKeys: seq<string>)
    requires |nodeKeys| == |group| && Indexes(byKey0, group, nodeKeys)
    modifies group
    ensures DataKeys(data, key, dataKeys)
    ensures |dataKeys| == |data| && Placed(group, data, nodeKeys, dataKeys, |data|, update, enter)
    ensures Left(byKey, group, nodeKeys, dataKeys)
    ensures Distinct(group) ==> Updated(update, data)
    ensures forall g :: g in group && g != null && g !in update ==> g.data == old(g.data)
  {
    hide Left, Placed, FirstAt, Indexes, Distinct;
    byKey, dataKeys := byKey0, seq(|data|, i requires 0 <= i < |data| => key(data[i], i));
    update, enter := seq(|data|, _ => null), seq(|data|, _ => None);
    var seen: map<string, D> := map[];
    NothingPlaced(group, data, nodeKeys, dataKeys, update, enter, byKey);
    for n := 0 to |data|
      invariant |update| == |enter| == |data|
      invariant Placed(group, data, nodeKeys, dataKeys, n, update, enter) && Left(byKey, group, nodeKeys, dataKeys[..n])
      invariant forall k :: k in seen <==> k in dataKeys[..n]
      invariant forall j :: n <= j < |data| ==> update[j] == null
      invariant Distinct(group) ==> Updated(update, data)
      invariant forall g :: g in group && g != null && g !in update ==> g.data == old(g.data)
    {
      var k := key(data[n], n);
      PlacedNext(group, data, nodeKeys, dataKeys, n, update, enter, byKey);
      LeftNext(group, nodeKeys, dataKeys, n, byKey);
      if k in byKey {
        MatchedInGroup(byKey, group, nodeKeys, dataKeys[..n], k);
        StillUpdated(update, n, byKey[k]);
        if Distinct(group) {
          forall j | 0 <= j < n ensures update[j] != byKey[k] {
            NotUpdatedYet(group, data, nodeKeys, dataKeys, n, update, enter, byKey, j);
          }
        }
      }
      update, enter := JoinDatum(data[n], k, byKey, seen, n, update, enter);
      seen, byKey := seen[k := data[n]], byKey - {k};
      assert dataKeys[..n + 1] == dataKeys[..n] + [k];
    }
    assert dataKeys[..|data|] == dataKeys;
  }

  lemma NothingPlaced<D>(group: seq<Node?<D>>, data: seq<D>, nodeKeys: seq<string>, dataKeys: seq<string>,
                         update: seq<Node?<D>>, enter: seq<Option<D>>, byKey: map<string, Node<D>>)
    requires |nodeKeys| == |group| && |dataKeys| == |data| == |update| == |enter|
    requires Indexes(byKey, group, nodeKeys) && forall j :: 0 <= j < |data| ==> update[j] == null && enter[j] == None
    ensures Placed(group, data, nodeKeys, dataKeys, 0, update, enter) && Left(byKey, group, nodeKeys, dataKeys[..0])
  {
  }

  /** The third loop: the nodes whose keys are left go. */
  method ExitLeft<D>(group: seq<Node?<D>>, keys: seq<string>, byKey: map<string, Node<D>>, exit0: seq<Node?<D>>,
      ghost dataKeys: seq<string>)
    returns (exit: seq<Node?<D>>)
    requires |keys| == |group| && Repeats(exit0, group, keys) && Left(byKey, group, keys, dataKeys)
    ensures |exit| == |group| && forall i :: 0 <= i < |group| ==>
      exit[i] == if Exits(keys, dataKeys, i) then group[i] else null
  {
    hide FirstAt;
    exit := exit0;
    for i := 0 to |group|
      invariant |exit| == |group|
      invariant forall p :: 0 <= p < i ==> exit[p] == if Exits(keys, dataKeys, p) then group[p] else null
      invariant forall p :: i <= p < |group| ==> exit[p] == exit0[p]
    {
      if keys[i] in byKey {
        exit := exit[i := group[i]];
      }
    }
  }

  /** The join by key: the keys are those of the nodes' data before, and of the new data. */
  method JoinByKey<D>(group: seq<Node?<D>>, data: seq<D>, key: (D, nat) -> string)
    returns (r: Join<D>, ghost nodeKeys: seq<string>, ghost dataKeys: seq<string>)
    modifies group
    ensures r.TypeError? <==> null in group
    ensures r.Joined? ==> |nodeKeys| == |group| && old(NodeKeys(group, key, nodeKeys)) && DataKeys(data, key, dataKeys)
    ensures r.Joined? ==> JoinsByKey(group, data, nodeKeys, dataKeys, r)
    ensures r.Joined? && Distinct(group) ==> Updated(r.update, data)
    ensures forall g :: g in group && g != null && (r.TypeError? || g !in r.update) ==> g.data == old(g.data)
  {
    var ok, byKey, exit, keys := IndexNodes(group, key);
    nodeKeys, dataKeys := keys, [];
    if !ok {
      return TypeError, nodeKeys, dataKeys;
    }
    var update, enter, left;
    update, enter, left, dataKeys := JoinData(group, data, key, byKey, keys);
    exit := ExitLeft(group, keys, left, exit, dataKeys);
    r := Joined(update, enter, exit);
  }

  /** The join by index: as many nodes as there are data are updated, or entered where a node is missing. */
  method JoinByIndex<D>(group: seq<Node?<D>>, data: seq<D>) returns (r: Join<D>)
    modifies group
    ensures r.Joined? && |r.update| == |r.enter| == |data| && |r.exit| == |group|
    ensures forall i :: 0 <= i < |data| ==> r.update[i] == if i < |group| then group[i] else null
    ensures forall i :: 0 <= i < |data| ==>
      r.enter[i] == if i < |group| && group[i] != null then None else Some(data[i])
    ensures forall i :: 0 <= i < |group| ==> r.exit[i] == if i < |data| then null else group[i]
    ensures Distinct(group) ==> Updated(r.update, data)
  {
    var n0 := if |group| < |data| then |group| else |data|;
    var update: seq<Node?<D>> := seq(|data|, _ => null);
    var enter: seq<Option<D>> := seq(|data|, _ => None);
    for i := 0 to n0
      invariant |update| == |enter| == |data|
      invariant forall p :: 0 <= p < |data| ==> update[p] == if p < i then group[p] else null
      invariant forall p :: 0 <= p < |data| ==> enter[p] == if p < i && group[p] == null then Some(data[p]) else None
      invariant Distinct(group) ==> Updated(update, data)
    {
      var node := group[i];
      if node != null {
        node.data := data[i];
        update := update[i := node];
      } else {
        enter := enter[i := Some(data[i])];
      }
    }
    for i := n0 to |data|
      invariant |enter| == |data|
      invariant forall p :: 0 <= p < |data| ==>
        enter[p] == if (p < n0 && group[p] == null) || n0 <= p < i then Some(data[p]) else None
    {
      enter := enter[i := Some(data[i])];
    }
    var exit: seq<Node?<D>> := seq(|group|, _ => null);
    for i := n0 to |group|
      invariant |exit| == |group|
      invariant forall p :: 0 <= p < |group| ==> exit[p] == if n0 <= p < i then group[p] else null
    {
      exit := exit[i := group[i]];
    }
    r := Joined(update, enter, exit);
  }
}
