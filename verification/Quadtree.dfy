/** Quadtrees: each node stands for a square box, and its children for the quarters of it. */
module Quadtrees {
  import opened Wrappers

  datatype Point<D> = Point(datum: D, x: real, y: real)

  datatype Box = Box(x1: real, y1: real, x2: real, y2: real) {
    function MidX(): real { (x1 + x2) * 0.5 }

    function MidY(): real { (y1 + y2) * 0.5 }

    /** Given bounds may also be the wrong way round. */
    predicate EqualSides() { x2 - x1 == y2 - y1 }

    predicate Square() { x1 <= x2 && EqualSides() }

    predicate Contains<D>(p: Point<D>) { x1 <= p.x <= x2 && y1 <= p.y <= y2 }

    /** The quarter a point goes to: 1 for the right, 2 for the bottom. */
    function QuarterOf<D>(p: Point<D>): (i: nat)
      ensures i < 4
    {
      (if p.y >= MidY() then 2 else 0) + if p.x >= MidX() then 1 else 0
    }

    function Quarter(i: nat): Box
      requires i < 4
    {
      Box(if i % 2 == 1 then MidX() else x1, if i >= 2 then MidY() else y1,
          if i % 2 == 1 then x2 else MidX(), if i >= 2 then y2 else MidY())
    }
  }

  function Abs(x: real): real { if x < 0.0 then -x else x }

  /** Points too close together to be kept apart. */
  predicate Near<D>(p: Point<D>, q: Point<D>) {
    Abs(p.x - q.x) + Abs(p.y - q.y) < 0.01
  }

  /** A node. Missing children are Absent; a leaf has none. */
  datatype Tree<D> = Absent | Node(leaf: bool, point: Option<Point<D>>, children: seq<Tree<D>>)

  ghost function Fresh<D>(): Tree<D> {
    Node(true, None, [Absent, Absent, Absent, Absent])
  }

  /** Every node has four children or places for them, leaves have none, and every point lies in its node's box. */
  ghost predicate Placed<D>(t: Tree<D>, box: Box) {
    t.Node? ==>
      && |t.children| == 4 && box.Square()
      && (t.leaf ==> forall i :: 0 <= i < 4 ==> t.children[i].Absent?)
      && (t.point.Some? ==> box.Contains(t.point.value))
      && forall i :: 0 <= i < 4 ==> Placed(t.children[i], box.Quarter(i))
  }

  /** The points below and at a node. */
  ghost function Points<D>(t: Tree<D>): multiset<Point<D>> {
    if t.Absent? then multiset{} else PointOf(t.point) + PointsOf(t.children)
  }

  ghost function PointsOf<D>(ts: seq<Tree<D>>): multiset<Point<D>> {
    if ts == [] then multiset{} else PointsOf(ts[..|ts| - 1]) + Points(ts[|ts| - 1])
  }

  ghost function PointOf<D>(p: Option<Point<D>>): multiset<Point<D>> {
    if p.Some? then multiset{p.value} else multiset{}
  }

  ghost function Height<D>(t: Tree<D>): nat {
    if t.Absent? then 0 else 1 + HeightOf(t.children)
  }

  ghost function HeightOf<D>(ts: seq<Tree<D>>): (h: nat)
    ensures forall i :: 0 <= i < |ts| ==> Height(ts[i]) <= h
  {
    if ts == [] then 0 else
    var h, k := HeightOf(ts[..|ts| - 1]), Height(ts[|ts| - 1]);
    assert forall i :: 0 <= i < |ts| - 1 ==> ts[..|ts| - 1][i] == ts[i];
    if h < k then k else h
  }

  /** How often a side can be halved before all points in the square are near each other. */
  ghost function Halvings(side: real): nat
    requires side >= 0.0
    decreases (side / 0.005).Floor
  {
    if side < 0.005 then 0 else
    HalfIsLess(side);
    1 + Halvings(side / 2.0)
  }

  lemma HalfIsLess(side: real)
    requires side >= 0.005
    ensures (side / 2.0 / 0.005).Floor < (side / 0.005).Floor
  {
  }

  // ---------- Insertion ----------

  function Side(box: Box): real { box.x2 - box.x1 }

  lemma QuarterContains<D>(box: Box, p: Point<D>)
    requires box.Square() && box.Contains(p)
    ensures var quarter := box.Quarter(box.QuarterOf(p));
      quarter.Square() && quarter.Contains(p) && Side(quarter) == Side(box) / 2.0 && Side(box) >= 0.0
  {
  }

  lemma QuarterSquare(box: Box, i: nat)
    requires box.Square() && i < 4
    ensures box.Quarter(i).Square() && Side(box.Quarter(i)) == Side(box) / 2.0
  {
  }

  lemma QuarterSides(box: Box, i: nat)
    requires box.EqualSides() && i < 4
    ensures box.Quarter(i).EqualSides()
  {
  }

  /** Points of a small enough square are near each other. */
  lemma SmallBoxNear<D>(box: Box, p: Point<D>, q: Point<D>)
    requires box.Square() && box.Contains(p) && box.Contains(q) && Side(box) < 0.005
    ensures Near(p, q)
  {
  }

  lemma HalvingsOfHalf(side: real)
    requires side >= 0.0
    ensures Halvings(side / 2.0) <= Halvings(side) && (side >= 0.005 ==> Halvings(side / 2.0) < Halvings(side))
  {
  }

  /** What bounds the depth of an insertion: the height of the tree, plus the halvings of the box until points
      must be near each other. */
  ghost function Bound<D>(t: Tree<D>, box: Box): nat
    requires box.Square()
  {
    Height(t) + Halvings(Side(box))
  }

  /** A child, or a new leaf in its place. */
  ghost function ChildOr<D>(t: Tree<D>, i: nat): (c: Tree<D>)
    requires t.Node? && i < |t.children|
    ensures c.Node?
  {
    if t.children[i].Absent? then Fresh() else t.children[i]
  }

  ghost predicate Empty<D>(t: Tree<D>) {
    t.Node? && t.leaf && t.point.None?
  }

  ghost function LeafOf<D>(p: Point<D>): Tree<D> {
    Node(true, Some(p), [Absent, Absent, Absent, Absent])
  }

  /** A leaf's own point moved to a child. */
  ghost function Pushed<D>(t: Tree<D>, box: Box): (r: Tree<D>)
    requires t.Node? && t.leaf && t.point.Some? && |t.children| == 4
    ensures r.Node? && |r.children| == 4
  {
    Node(false, None, t.children[box.QuarterOf(t.point.value) := LeafOf(t.point.value)])
  }

  lemma PushedFits<D>(t: Tree<D>, box: Box, p: Point<D>)
    requires t.Node? && Placed(t, box) && t.leaf && t.point.Some? && box.Contains(p) && !Near(t.point.value, p)
    ensures Placed(Pushed(t, box), box)
    ensures var i := box.QuarterOf(p);
      box.Quarter(i).Square() && Bound(ChildOr(Pushed(t, box), i), box.Quarter(i)) < Bound(t, box)
  {
    var q := t.point.value;
    var i, j, r := box.QuarterOf(p), box.QuarterOf(q), Pushed(t, box);
    QuarterContains(box, q);
    QuarterSquare(box, i);
    forall k | 0 <= k < 4 ensures Placed(r.children[k], box.Quarter(k)) {
    }
    if Side(box) < 0.005 { SmallBoxNear(box, p, q); }
    HalvingsOfHalf(Side(box));
    LeafHeight(ChildOr(r, i));
  }

  lemma {:induction false} AbsentHeight<D>(ts: seq<Tree<D>>)
    requires forall i :: 0 <= i < |ts| ==> ts[i].Absent?
    ensures HeightOf(ts) == 0
  {
    if ts != [] {
      AbsentHeight(ts[..|ts| - 1]);
    }
  }

  lemma LeafHeight<D>(t: Tree<D>)
    requires t.Node? && forall i :: 0 <= i < |t.children| ==> t.children[i].Absent?
    ensures Height(t) == 1
  {
    AbsentHeight(t.children);
  }

  /** Below an inner node, or a leaf whose point stays, the tree is lower. */
  lemma ChildFits<D>(t: Tree<D>, box: Box, p: Point<D>)
    requires t.Node? && Placed(t, box) && box.Contains(p)
    ensures var i := box.QuarterOf(p); var quarter := box.Quarter(i);
      quarter.Square() && quarter.Contains(p) && Placed(ChildOr(t, i), quarter)
      && (Bound(ChildOr(t, i), quarter) < Bound(t, box)
        || (Bound(ChildOr(t, i), quarter) == Bound(t, box) && Empty(ChildOr(t, i))))
  {
    hide Box.Quarter, Box.QuarterOf, Box.Square, Box.Contains, Side, HeightOf;
    var i := box.QuarterOf(p);
    QuarterContains(box, p);
    HalvingsOfHalf(Side(box));
    LeafHeight<D>(Fresh());
    assert Height(t.children[i]) <= HeightOf(t.children);
  }

  ghost function Rank<D>(t: Tree<D>): nat {
    if Empty(t) then 0 else 1
  }

  /** `insert`: close points are kept in one node and a node below it, others are pushed apart. */
  ghost function Inserted<D>(t: Tree<D>, p: Point<D>, box: Box): (r: Tree<D>)
    requires t.Node? && Placed(t, box) && box.Square() && box.Contains(p)
    ensures r.Node?
    decreases Bound(t, box), Rank(t), 0
  {
    if t.leaf && t.point.None? then t.(point := Some(p))
    else if t.leaf && !Near(t.point.value, p) then
      PushedFits(t, box, p);
      ChildInserted(Pushed(t, box), p, box)
    else
      ChildFits(t, box, p);
      ChildInserted(t, p, box)
  }

  ghost function ChildBound<D>(t: Tree<D>, p: Point<D>, box: Box): nat
    requires t.Node? && Placed(t, box) && box.Square() && box.Contains(p)
  {
    QuarterContains(box, p);
    Bound(ChildOr(t, box.QuarterOf(p)), box.Quarter(box.QuarterOf(p)))
  }

  /** `insertChild`. */
  ghost function ChildInserted<D>(t: Tree<D>, p: Point<D>, box: Box): (r: Tree<D>)
    requires t.Node? && Placed(t, box) && box.Square() && box.Contains(p)
    ensures r.Node?
    decreases ChildBound(t, p, box), Rank(ChildOr(t, box.QuarterOf(p))), 1
  {
    ChildFits(t, box, p);
    var i := box.QuarterOf(p);
    t.(leaf := false, children := t.children[i := Inserted(ChildOr(t, i), p, box.Quarter(i))])
  }

  // ---------- Insertion in a number of steps ----------

  /** Every node has four children or places for them, and leaves have none. */
  ghost predicate Shaped<D>(t: Tree<D>) {
    t.Node? ==>
      && |t.children| == 4 && (t.leaf ==> forall i :: 0 <= i < 4 ==> t.children[i].Absent?)
      && forall i :: 0 <= i < 4 ==> Shaped(t.children[i])
  }

  lemma {:induction false} PlacedShaped<D>(t: Tree<D>, box: Box)
    requires Placed(t, box)
    ensures Shaped(t)
    decreases t
  {
    if t.Node? {
      forall i | 0 <= i < 4 ensures Shaped(t.children[i]) {
        PlacedShaped(t.children[i], box.Quarter(i));
      }
    }
  }

  /** `insert` of any point, wherever it lies, if n calls for it will do. */
  ghost function InsertedIn<D>(n: nat, t: Tree<D>, p: Point<D>, box: Box): (r: Option<Tree<D>>)
    requires t.Node? && Shaped(t)
    ensures r.Some? ==> r.value.Node? && Shaped(r.value)
    decreases n, 0
  {
    if n == 0 then None
    else if t.leaf && t.point.None? then Some(t.(point := Some(p)))
    else if t.leaf && !Near(t.point.value, p) then ChildInsertedIn(n - 1, Pushed(t, box), p, box)
    else ChildInsertedIn(n - 1, t, p, box)
  }

  /** `insertChild`. */
  ghost function ChildInsertedIn<D>(n: nat, t: Tree<D>, p: Point<D>, box: Box): (r: Option<Tree<D>>)
    requires t.Node? && Shaped(t)
    ensures r.Some? ==> r.value.Node? && Shaped(r.value)
    decreases n, 1
  {
    var i := box.QuarterOf(p);
    var child := InsertedIn(n, ChildOr(t, i), p, box.Quarter(i));
    if child.None? then None else Some(t.(leaf := false, children := t.children[i := child.value]))
  }

  /** In a box that contains the points, insertion ends, with the same tree. */
  lemma {:induction false} InsertEnds<D>(t: Tree<D>, p: Point<D>, box: Box) returns (n: nat)
    requires t.Node? && Placed(t, box) && box.Square() && box.Contains(p)
    ensures Shaped(t) && InsertedIn(n, t, p, box) == Some(Inserted(t, p, box))
    decreases Bound(t, box), Rank(t), 0
  {
    PlacedShaped(t, box);
    if t.leaf && t.point.None? {
      n := 1;
    } else if t.leaf && !Near(t.point.value, p) {
      PushedFits(t, box, p);
      n := InsertChildEnds(Pushed(t, box), p, box);
      n := n + 1;
    } else {
      ChildFits(t, box, p);
      n := InsertChildEnds(t, p, box);
      n := n + 1;
    }
  }

  lemma {:induction false} InsertChildEnds<D>(t: Tree<D>, p: Point<D>, box: Box) returns (n: nat)
    requires t.Node? && Placed(t, box) && box.Square() && box.Contains(p)
    ensures Shaped(t) && ChildInsertedIn(n, t, p, box) == Some(ChildInserted(t, p, box))
    decreases ChildBound(t, p, box), Rank(ChildOr(t, box.QuarterOf(p))), 1
  {
    PlacedShaped(t, box);
    ChildFits(t, box, p);
    var i := box.QuarterOf(p);
    n := InsertEnds(ChildOr(t, i), p, box.Quarter(i));
  }

  // ---------- What insertion does ----------

  /** Every point still lies in the box of the node that holds it. */
  lemma {:induction false} InsertPlaced<D>(t: Tree<D>, p: Point<D>, box: Box)
    requires t.Node? && Placed(t, box) && box.Square() && box.Contains(p)
    ensures Placed(Inserted(t, p, box), box)
    decreases Bound(t, box), Rank(t), 0
  {
    if t.leaf && t.point.None? {
    } else if t.leaf && !Near(t.point.value, p) {
      PushedFits(t, box, p);
      InsertChildPlaced(Pushed(t, box), p, box);
    } else {
      ChildFits(t, box, p);
      InsertChildPlaced(t, p, box);
    }
  }

  lemma {:induction false} InsertChildPlaced<D>(t: Tree<D>, p: Point<D>, box: Box)
    requires t.Node? && Placed(t, box) && box.Square() && box.Contains(p)
    ensures Placed(ChildInserted(t, p, box), box)
    decreases ChildBound(t, p, box), Rank(ChildOr(t, box.QuarterOf(p))), 1
  {
    ChildFits(t, box, p);
    var i := box.QuarterOf(p);
    InsertPlaced(ChildOr(t, i), p, box.Quarter(i));
  }

  lemma LastPoints<D>(ts: seq<Tree<D>>, c: Tree<D>)
    ensures PointsOf(ts + [c]) == PointsOf(ts) + Points(c)
  {
    assert (ts + [c])[..|ts|] == ts;
  }

  lemma {:induction false} PointsReplaced<D>(ts: seq<Tree<D>>, i: nat, c: Tree<D>)
    requires i < |ts|
    ensures Points(ts[i]) <= PointsOf(ts) && PointsOf(ts[i := c]) == PointsOf(ts) - Points(ts[i]) + Points(c)
    decreases |ts|
  {
    hide Points, PointsOf;
    var n := |ts| - 1;
    assert ts == ts[..n] + [ts[n]];
    LastPoints(ts[..n], ts[n]);
    if i < n {
      PointsReplaced(ts[..n], i, c);
      assert ts[i := c] == ts[..n][i := c] + [ts[n]];
      LastPoints(ts[..n][i := c], ts[n]);
    } else {
      assert ts[i := c] == ts[..n] + [c];
      LastPoints(ts[..n], c);
    }
  }

  lemma FreshPoints<D>()
    ensures Points<D>(Fresh()) == multiset{}
  {
    AbsentPoints<D>([Absent, Absent, Absent, Absent]);
  }

  lemma {:induction false} AbsentPoints<D>(ts: seq<Tree<D>>)
    requires forall i :: 0 <= i < |ts| ==> ts[i].Absent?
    ensures PointsOf(ts) == multiset{}
  {
    if ts != [] {
      AbsentPoints(ts[..|ts| - 1]);
    }
  }

  lemma PushedPoints<D>(t: Tree<D>, box: Box)
    requires t.Node? && Shaped(t) && t.leaf && t.point.Some?
    ensures Shaped(Pushed(t, box)) && Points(Pushed(t, box)) == Points(t)
  {
    var q := t.point.value;
    PointsReplaced(t.children, box.QuarterOf(q), LeafOf(q));
    FreshPoints<D>();
    AbsentPoints(t.children);
    assert Points(LeafOf(q)) == multiset{q} by { AbsentPoints<D>([Absent, Absent, Absent, Absent]); }
  }

  /** The point, and nothing else, is added. */
  lemma {:induction false} InsertPoints<D>(n: nat, t: Tree<D>, p: Point<D>, box: Box)
    requires t.Node? && Shaped(t) && InsertedIn(n, t, p, box).Some?
    ensures Points(InsertedIn(n, t, p, box).value) == Points(t) + multiset{p}
    decreases n, 0
  {
    hide PointsOf, Near, Box.QuarterOf, Box.Quarter, ChildInsertedIn, Pushed;
    if t.leaf && t.point.None? {
    } else if t.leaf && !Near(t.point.value, p) {
      PushedPoints(t, box);
      InsertChildPoints(n - 1, Pushed(t, box), p, box);
    } else {
      InsertChildPoints(n - 1, t, p, box);
    }
  }

  lemma {:induction false} InsertChildPoints<D>(n: nat, t: Tree<D>, p: Point<D>, box: Box)
    requires t.Node? && Shaped(t) && ChildInsertedIn(n, t, p, box).Some?
    ensures Points(ChildInsertedIn(n, t, p, box).value) == Points(t) + multiset{p}
    decreases n, 1
  {
    var i := box.QuarterOf(p);
    InsertPoints(n, ChildOr(t, i), p, box.Quarter(i));
    PointsReplaced(t.children, i, InsertedIn(n, ChildOr(t, i), p, box.Quarter(i)).value);
    FreshPoints<D>();
  }

  /** The quarters by their numbers: left and right in turn, the upper two first. */
  predicate IsQuarter(box: Box, i: nat, q: Box) {
    var sx, sy := (box.x1 + box.x2) / 2.0, (box.y1 + box.y2) / 2.0;
    && (if i == 0 || i == 2 then q.x1 == box.x1 && q.x2 == sx else q.x1 == sx && q.x2 == box.x2)
    && (if i == 0 || i == 1 then q.y1 == box.y1 && q.y2 == sy else q.y1 == sy && q.y2 == box.y2)
  }

  /** A point on a line between quarters belongs to the right and to the lower one. */
  predicate BelongsTo<D>(box: Box, i: nat, p: Point<D>) {
    && (p.x >= (box.x1 + box.x2) / 2.0 <==> i == 1 || i == 3)
    && (p.y >= (box.y1 + box.y2) / 2.0 <==> i == 2 || i == 3)
  }

  /** Below each node, points are in the children for the quarters that they belong to. */
  ghost predicate Parted<D>(t: Tree<D>, box: Box)
    decreases t, 0
  {
    t.Node? ==> |t.children| == 4 && forall i :: 0 <= i < 4 ==> ChildParted(t.children[i], box, i)
  }

  ghost predicate ChildParted<D>(c: Tree<D>, box: Box, i: nat)
    decreases c, 1
  {
    (forall p :: p in Points(c) ==> BelongsTo(box, i, p)) && forall q :: IsQuarter(box, i, q) ==> Parted(c, q)
  }

  lemma QuarterOfPoint<D>(box: Box, p: Point<D>)
    ensures BelongsTo(box, box.QuarterOf(p), p)
    ensures forall i: nat, q: Box :: i < 4 && IsQuarter(box, i, q) ==> q == box.Quarter(i)
    ensures forall i: nat :: i < 4 ==> IsQuarter(box, i, box.Quarter(i))
  {
  }

  lemma LeafParted<D>(t: Tree<D>, box: Box)
    requires t.Node? && Shaped(t) && t.leaf
    ensures Parted(t, box)
  {
    forall i | 0 <= i < 4 ensures ChildParted(t.children[i], box, i) {
    }
  }

  lemma ReplacedParted<D>(t: Tree<D>, box: Box, i: nat, c: Tree<D>, leaf: bool, point: Option<Point<D>>)
    requires t.Node? && Parted(t, box) && i < 4 && ChildParted(c, box, i)
    ensures Parted(Node(leaf, point, t.children[i := c]), box)
  {
  }

  lemma PushedParted<D>(t: Tree<D>, box: Box)
    requires t.Node? && Shaped(t) && t.leaf && t.point.Some?
    ensures Shaped(Pushed(t, box)) && Parted(Pushed(t, box), box)
  {
    hide ChildParted, BelongsTo, Box.QuarterOf;
    var q := t.point.value;
    LeafParted(t, box);
    SinglePoint(q, box);
    ReplacedParted(t, box, box.QuarterOf(q), LeafOf(q), false, None);
    PushedPoints(t, box);
  }

  lemma SinglePoint<D>(q: Point<D>, box: Box)
    ensures ChildParted(LeafOf(q), box, box.QuarterOf(q))
  {
    AbsentPoints<D>([Absent, Absent, Absent, Absent]);
    assert Points(LeafOf(q)) == multiset{q};
    QuarterOfPoint(box, q);
    forall r | IsQuarter(box, box.QuarterOf(q), r) ensures Parted(LeafOf(q), r) {
      LeafParted(LeafOf(q), r);
    }
  }

  /** Wherever the point lies, it is put in the quarters it belongs to. */
  lemma {:induction false} InsertParted<D>(n: nat, t: Tree<D>, p: Point<D>, box: Box)
    requires t.Node? && Shaped(t) && Parted(t, box) && InsertedIn(n, t, p, box).Some?
    ensures Parted(InsertedIn(n, t, p, box).value, box)
    decreases n, 0
  {
    hide ChildParted, Points, Near, Box.QuarterOf, Pushed;
    if t.leaf && t.point.None? {
    } else if t.leaf && !Near(t.point.value, p) {
      PushedParted(t, box);
      InsertChildParted(n - 1, Pushed(t, box), p, box);
    } else {
      InsertChildParted(n - 1, t, p, box);
    }
  }

  lemma {:induction false} InsertChildParted<D>(n: nat, t: Tree<D>, p: Point<D>, box: Box)
    requires t.Node? && Shaped(t) && Parted(t, box) && ChildInsertedIn(n, t, p, box).Some?
    ensures Parted(ChildInsertedIn(n, t, p, box).value, box)
    decreases n, 1
  {
    hide Points, Parted, Box.QuarterOf, InsertedIn, BelongsTo;
    var i := box.QuarterOf(p);
    var c, q := ChildOr(t, i), box.Quarter(i);
    OldChildParted(t, box, i);
    QuarterOfPoint(box, p);
    InsertParted(n, c, p, q);
    InsertPoints(n, c, p, q);
    var d := InsertedIn(n, c, p, q).value;
    assert ChildParted(d, box, i) by { ChildStillParted(c, d, p, box, i); }
    ReplacedParted(t, box, i, d, false, t.point);
  }

  lemma OldChildParted<D>(t: Tree<D>, box: Box, i: nat)
    requires t.Node? && Shaped(t) && Parted(t, box) && i < 4
    ensures ChildParted(ChildOr(t, i), box, i) && Parted(ChildOr(t, i), box.Quarter(i)) && Shaped(ChildOr(t, i))
  {
    FreshPoints<D>();
    assert ChildParted(t.children[i], box, i);
    assert IsQuarter(box, i, box.Quarter(i));
    forall q | IsQuarter(box, i, q) ensures Parted(ChildOr(t, i), q) {
      if t.children[i].Absent? { LeafParted(Fresh<D>(), q); }
    }
  }

  lemma ChildStillParted<D>(c: Tree<D>, d: Tree<D>, p: Point<D>, box: Box, i: nat)
    requires ChildParted(c, box, i) && Points(d) == Points(c) + multiset{p} && BelongsTo(box, i, p) && i < 4
    requires Parted(d, box.Quarter(i))
    ensures ChildParted(d, box, i)
  {
    hide Points, Parted, BelongsTo;
    QuarterOfPoint(box, p);
  }

  /** Inserted into a leaf, a point leaves the leaf's own where it is exactly if the two are less than .01 apart, right
      and left and up and down taken together. */
  lemma KeptIffClose<D>(n: nat, q: Point<D>, p: Point<D>, box: Box)
    requires InsertedIn(n, LeafOf(q), p, box).Some?
    ensures InsertedIn(n, LeafOf(q), p, box).value.point == (
      if p.x - q.x + (p.y - q.y) < 0.01 && p.x - q.x + (q.y - p.y) < 0.01
        && q.x - p.x + (p.y - q.y) < 0.01 && q.x - p.x + (q.y - p.y) < 0.01 then Some(q) else None)
  {
    hide Box.QuarterOf, Box.Quarter;
  }

  lemma {:induction false} HeightReplaced<D>(ts: seq<Tree<D>>, i: nat, c: Tree<D>)
    requires i < |ts|
    ensures HeightOf(ts[i := c]) <= if HeightOf(ts) < Height(c) then Height(c) else HeightOf(ts)
    decreases |ts|
  {
    var n := |ts| - 1;
    if i < n {
      HeightReplaced(ts[..n], i, c);
      assert ts[i := c][..n] == ts[..n][i := c];
    } else {
      assert ts[i := c][..n] == ts[..n];
    }
  }

  /** The tree grows no deeper than its height and the halvings of the box. */
  lemma {:induction false} InsertHeight<D>(t: Tree<D>, p: Point<D>, box: Box)
    requires t.Node? && Placed(t, box) && box.Square() && box.Contains(p)
    ensures Height(Inserted(t, p, box)) <= if Empty(t) then Height(t) else Bound(t, box) + 1
    decreases Bound(t, box), Rank(t), 0
  {
    if t.leaf && t.point.None? {
    } else if t.leaf && !Near(t.point.value, p) {
      PushedFits(t, box, p);
      InsertChildHeight(Pushed(t, box), p, box);
      LeafHeight(LeafOf(t.point.value));
      AbsentHeight(t.children);
      HeightReplaced(t.children, box.QuarterOf(t.point.value), LeafOf(t.point.value));
      assert Height(t) == 1;
      HalvingsPositive(t, p, box);
    } else {
      ChildFits(t, box, p);
      InsertChildHeight(t, p, box);
    }
  }

  lemma HalvingsPositive<D>(t: Tree<D>, p: Point<D>, box: Box)
    requires Placed(t, box) && t.Node? && t.point.Some? && box.Square() && box.Contains(p) && !Near(t.point.value, p)
    ensures Halvings(Side(box)) >= 1
  {
    if Side(box) < 0.005 { SmallBoxNear(box, p, t.point.value); }
  }

  lemma {:induction false} InsertChildHeight<D>(t: Tree<D>, p: Point<D>, box: Box)
    requires t.Node? && Placed(t, box) && box.Square() && box.Contains(p)
    ensures var c, quarter := ChildOr(t, box.QuarterOf(p)), box.Quarter(box.QuarterOf(p));
      var d := if Empty(c) then 1 else ChildBound(t, p, box) + 1;
      Height(ChildInserted(t, p, box)) <= 1 + if HeightOf(t.children) < d then d else HeightOf(t.children)
    decreases ChildBound(t, p, box), Rank(ChildOr(t, box.QuarterOf(p))), 1
  {
    ChildFits(t, box, p);
    var i := box.QuarterOf(p);
    var c := Inserted(ChildOr(t, i), p, box.Quarter(i));
    InsertHeight(ChildOr(t, i), p, box.Quarter(i));
    if Empty(ChildOr(t, i)) { LeafHeight(ChildOr(t, i)); }
    HeightReplaced(t.children, i, c);
  }

  // ---------- The nodes ----------

  class QuadNode<D> {
    var leaf: bool
    var nodes: seq<QuadNode?<D>>
    var point: Option<Point<D>>
    ghost var Repr: set<object>
    /** What the node and those below it hold. */
    ghost var tree: Tree<D>

    constructor ()
      ensures Valid() && fresh(Repr) && tree == Fresh()
    {
      leaf, nodes, point := true, [null, null, null, null], None;
      Repr, tree := {this}, Fresh();
    }

    ghost predicate Valid()
      reads this, Repr
      ensures Valid() ==> this in Repr
      decreases Repr
    {
      && this in Repr && |nodes| == 4
      && tree.Node? && tree.leaf == leaf && tree.point == point && |tree.children| == 4
      && (forall i :: 0 <= i < 4 ==> ChildValid(nodes[i], tree.children[i]))
      && (forall i, j :: 0 <= i < j < 4 ==> Apart(nodes[i], nodes[j]))
    }

    ghost predicate ChildValid(node: QuadNode?<D>, t: Tree<D>)
      reads this, Repr
      decreases Repr, 0
    {
      if node == null then t.Absent?
      else node in Repr && node.Repr < Repr && this !in node.Repr && node.Valid() && t == node.tree
    }

    static ghost predicate Apart(a: QuadNode?<D>, b: QuadNode?<D>)
      reads if a == null then {} else {a}, if b == null then {} else {b}
    {
      a != null && b != null ==> a.Repr !! b.Repr
    }

    /** `insert`, for any point for which it ends. */
    method Insert(p: Point<D>, box: Box, ghost n: nat)
      requires Valid() && Shaped(tree) && InsertedIn(n, tree, p, box).Some?
      modifies Repr
      ensures Valid() && fresh(Repr - old(Repr)) && Some(tree) == InsertedIn(n, old(tree), p, box)
      decreases n, 0
    {
      if leaf {
        if point.Some? {
          var q := point.value;
          if Near(q, p) {
            InsertChild(p, box, n - 1);
          } else {
            Push(q, box);
            InsertChild(p, box, n - 1);
          }
        } else {
          point, tree := Some(p), tree.(point := Some(p));
        }
      } else {
        InsertChild(p, box, n - 1);
      }
    }

    /** Pushes a leaf's own point to a child. */
    method Push(q: Point<D>, box: Box)
      requires Valid() && Shaped(tree) && leaf && point == Some(q)
      modifies Repr
      ensures Valid() && fresh(Repr - old(Repr)) && tree == Pushed(old(tree), box)
      decreases 1, 2
    {
      ghost var t := tree;
      point, tree := None, tree.(point := None);
      PushFits(t, box);
      InsertChild(q, box, 1);
    }

    /** Makes child i if it is missing. */
    method Grow(i: nat)
      requires Valid() && i < 4
      modifies this
      ensures Valid() && fresh(Repr - old(Repr)) && nodes[i] != null
      ensures tree == old(tree).(leaf := false, children := old(tree).children[i := ChildOr(old(tree), i)])
    {
      assert ChildValid(nodes[i], tree.children[i]);
      assert nodes[i] != null ==> nodes[i].Valid() && tree.children[i].Node?;
      leaf := false;
      tree := tree.(leaf := false);
      if nodes[i] == null {
        var n := new QuadNode();
        nodes := nodes[i := n];
        Adopt(i, n);
      } else {
        assert tree.children[i := tree.children[i]] == tree.children;
      }
    }

    /** `insertChild`. */
    method InsertChild(p: Point<D>, box: Box, ghost n: nat)
      requires Valid() && Shaped(tree) && ChildInsertedIn(n, tree, p, box).Some?
      modifies Repr
      ensures Valid() && fresh(Repr - old(Repr)) && Some(tree) == ChildInsertedIn(n, old(tree), p, box)
      decreases n, 1
    {
      var i := box.QuarterOf(p);
      Grow(i);
      var child := nodes[i];
      ghost var ts := old(tree).children;
      child.Insert(p, box.Quarter(i), n);
      assert ts[i := ChildOr(old(tree), i)][i := child.tree] == ts[i := child.tree];
      Adopt(i, child);
    }

    /** Child i has changed. */
    ghost method Adopt(i: nat, n: QuadNode<D>)
      requires i < 4 && |nodes| == 4 && nodes[i] == n && this in Repr && n in n.Repr && this !in n.Repr && n.Valid()
      requires tree.Node? && tree.leaf == leaf && tree.point == point && |tree.children| == 4
      requires forall j :: 0 <= j < 4 && j != i ==>
        ChildValid(nodes[j], tree.children[j]) && Apart(nodes[j], n) && Apart(n, nodes[j])
      requires forall j, k :: 0 <= j < k < 4 && j != i && k != i ==> Apart(nodes[j], nodes[k])
      modifies this`Repr, this`tree
      ensures Valid() && Repr == old(Repr) + n.Repr
      ensures tree == old(tree).(children := old(tree).children[i := n.tree])
    {
      Repr := Repr + n.Repr;
      tree := tree.(children := tree.children[i := n.tree]);
    }
  }

  /** Inserting a leaf's own point below it, after taking it out, pushes it, in one step. */
  lemma PushFits<D>(t: Tree<D>, box: Box)
    requires t.Node? && Shaped(t) && t.leaf && t.point.Some?
    ensures Shaped(t.(point := None))
      && ChildInsertedIn(1, t.(point := None), t.point.value, box) == Some(Pushed(t, box))
  {
  }

  // ---------- Whole trees ----------

  /** A coordinate as it was computed. */
  datatype Coordinate = NaN | Number(value: real)

  datatype Entry<D> = Entry(datum: D, x: Coordinate, y: Coordinate) {
    predicate Valid() { x.Number? && y.Number? }

    function AsPoint(): Point<D>
      requires Valid()
    {
      Point(datum, x.value, y.value)
    }
  }

  ghost function PointsIn<D>(data: seq<Entry<D>>): multiset<Point<D>> {
    if data == [] then multiset{} else
    var last := data[|data| - 1];
    PointsIn(data[..|data| - 1]) + if last.Valid() then multiset{last.AsPoint()} else multiset{}
  }

  predicate Covers(low: Option<real>, high: Option<real>, c: Coordinate) {
    c.Number? ==> low.Some? && high.Some? && low.value <= c.value <= high.value
  }

  /** All coordinates that are numbers lie in the box. */
  ghost predicate AllInside<D>(data: seq<Entry<D>>, box: Box) {
    && (forall i :: 0 <= i < |data| && data[i].x.Number? ==> box.x1 <= data[i].x.value <= box.x2)
    && forall i :: 0 <= i < |data| && data[i].y.Number? ==> box.y1 <= data[i].y.value <= box.y2
  }

  /** One of the coordinates so far. */
  ghost predicate Among(v: Option<real>, cs: seq<Coordinate>) {
    v.Some? ==> Number(v.value) in cs
  }

  ghost function Xs<D>(data: seq<Entry<D>>): (cs: seq<Coordinate>)
    ensures |cs| == |data| && forall i :: 0 <= i < |data| ==> cs[i] == data[i].x
  {
    seq(|data|, i requires 0 <= i < |data| => data[i].x)
  }

  ghost function Ys<D>(data: seq<Entry<D>>): (cs: seq<Coordinate>)
    ensures |cs| == |data| && forall i :: 0 <= i < |data| ==> cs[i] == data[i].y
  {
    seq(|data|, i requires 0 <= i < |data| => data[i].y)
  }

  lemma AmongMore(cs: seq<Coordinate>, c: Coordinate, low: Option<real>, high: Option<real>)
    requires Among(low, cs) && Among(high, cs) && (low.Some? <==> high.Some?)
    requires low.Some? ==> low.value <= high.value
    ensures Among(Extend(low, high, c).0, cs + [c]) && Among(Extend(low, high, c).1, cs + [c])
  {
    assert (cs + [c])[|cs|] == c;
  }

  /** The least and greatest of the coordinates so far and c; NaN changes neither. */
  function Extend(low: Option<real>, high: Option<real>, c: Coordinate): (r: (Option<real>, Option<real>))
    requires low.Some? && high.Some? ==> low.value <= high.value
    requires low.Some? <==> high.Some?
    ensures Covers(r.0, r.1, c) && (r.0.Some? <==> r.1.Some?) && (r.0.Some? ==> r.0.value <= r.1.value)
    ensures forall d :: Covers(low, high, d) ==> Covers(r.0, r.1, d)
  {
    if c.NaN? then (low, high)
    else (
      if low.None? || c.value < low.value then Some(c.value) else low,
      if high.None? || c.value > high.value then Some(c.value) else high)
  }

  /** The bounds of all coordinates, if there are any. */
  method Bounds<D>(data: seq<Entry<D>>) returns (x1: Option<real>, y1: Option<real>, x2: Option<real>, y2: Option<real>)
    ensures (x1.Some? <==> x2.Some?) && (x1.Some? ==> x1.value <= x2.value)
    ensures (y1.Some? <==> y2.Some?) && (y1.Some? ==> y1.value <= y2.value)
    ensures Among(x1, Xs(data)) && Among(x2, Xs(data)) && Among(y1, Ys(data)) && Among(y2, Ys(data))
    ensures forall i :: 0 <= i < |data| ==> Covers(x1, x2, data[i].x) && Covers(y1, y2, data[i].y)
  {
    x1, y1, x2, y2 := None, None, None, None;
    for i := 0 to |data|
      invariant (x1.Some? <==> x2.Some?) && (x1.Some? ==> x1.value <= x2.value)
      invariant (y1.Some? <==> y2.Some?) && (y1.Some? ==> y1.value <= y2.value)
      invariant Among(x1, Xs(data)[..i]) && Among(x2, Xs(data)[..i])
      invariant Among(y1, Ys(data)[..i]) && Among(y2, Ys(data)[..i])
      invariant forall j :: 0 <= j < i ==> Covers(x1, x2, data[j].x) && Covers(y1, y2, data[j].y)
    {
      AmongMore(Xs(data)[..i], data[i].x, x1, x2);
      AmongMore(Ys(data)[..i], data[i].y, y1, y2);
      assert Xs(data)[..i + 1] == Xs(data)[..i] + [data[i].x] && Ys(data)[..i + 1] == Ys(data)[..i] + [data[i].y];
      var xs, ys := Extend(x1, x2, data[i].x), Extend(y1, y2, data[i].y);
      x1, x2, y1, y2 := xs.0, xs.1, ys.0, ys.1;
    }
    assert Xs(data)[..|data|] == Xs(data) && Ys(data)[..|data|] == Ys(data);
  }

  /** The smallest square at the corner of the bounds that covers them. */
  function Squared(x1: real, y1: real, x2: real, y2: real): (box: Box)
    requires x1 <= x2 && y1 <= y2
    ensures box.Square() && box.x1 == x1 && box.y1 == y1 && box.x2 >= x2 && box.y2 >= y2
  {
    var dx, dy := x2 - x1, y2 - y1;
    if dx > dy then Box(x1, y1, x2, y1 + dx) else Box(x1, y1, x1 + dy, y2)
  }

  lemma SquareLeast<D>(data: seq<Entry<D>>, b: Box, x1: real, y1: real, x2: real, y2: real)
    requires b.Square() && AllInside(data, b) && x1 <= x2 && y1 <= y2
    requires Number(x1) in Xs(data) && Number(x2) in Xs(data) && Number(y1) in Ys(data) && Number(y2) in Ys(data)
    ensures Side(Squared(x1, y1, x2, y2)) <= Side(b)
  {
    var i, j :| 0 <= i < |data| && Xs(data)[i] == Number(x1) && 0 <= j < |data| && Xs(data)[j] == Number(x2);
    var k, l :| 0 <= k < |data| && Ys(data)[k] == Number(y1) && 0 <= l < |data| && Ys(data)[l] == Number(y2);
    assert data[i].x == Number(x1) && data[j].x == Number(x2) && data[k].y == Number(y1) && data[l].y == Number(y2);
  }

  /** The bounds of the data as a square. Without a valid entry they do not matter. */
  method SquareBounds<D>(data: seq<Entry<D>>) returns (box: Box)
    ensures forall b: Box :: b.Square() && AllInside(data, b) ==> Side(box) <= Side(b)
    ensures (exists i :: 0 <= i < |data| && data[i].Valid()) ==>
      && AllInside(data, box) && Number(box.x1) in Xs(data) && Number(box.y1) in Ys(data)
    ensures box.Square() && forall i :: 0 <= i < |data| && data[i].Valid() ==> box.Contains(data[i].AsPoint())
  {
    var x1, y1, x2, y2 := Bounds(data);
    box := Box(0.0, 0.0, 0.0, 0.0);
    if x1.Some? && y1.Some? {
      box := Squared(x1.value, y1.value, x2.value, y2.value);
    }
    forall b: Box | b.Square() && AllInside(data, b) ensures Side(box) <= Side(b) {
      if x1.Some? && y1.Some? { SquareLeast(data, b, x1.value, y1.value, x2.value, y2.value); }
    }
    forall i | 0 <= i < |data| ensures Covers(x1, x2, data[i].x) && Covers(y1, y2, data[i].y) {
    }
    forall i | 0 <= i < |data| && data[i].Valid() ensures box.Contains(data[i].AsPoint()) {
      assert Covers(x1, x2, data[i].x) && Covers(y1, y2, data[i].y);
    }
  }

  /** The quadtree of some data, in bounds computed from them. */
  method Build<D>(data: seq<Entry<D>>) returns (root: QuadNode<D>, box: Box)
    ensures fresh(root.Repr) && root.Valid() && box.Square() && Placed(root.tree, box)
    ensures Points(root.tree) == PointsIn(data) && Parted(root.tree, box)
  {
    hide Parted, Placed, Points, QuadNode.Valid, Inserted, Box.Contains;
    box := SquareBounds(data);
    root := new QuadNode();
    FreshPoints<D>();
    FreshPlaced<D>(box);
    LeafParted<D>(Fresh(), box);
    for i := 0 to |data|
      invariant fresh(root.Repr) && root.Valid() && root.tree.Node? && Placed(root.tree, box)
      invariant Points(root.tree) == PointsIn(data[..i]) && Parted(root.tree, box)
    {
      assert data[..i + 1][..i] == data[..i];
      if data[i].Valid() {
        var p := data[i].AsPoint();
        InsertPlaced(root.tree, p, box);
        ghost var n := InsertEnds(root.tree, p, box);
        InsertPoints(n, root.tree, p, box);
        InsertParted(n, root.tree, p, box);
        root.Insert(p, box, n);
      }
    }
    assert data[..|data|] == data;
  }

  lemma FreshPlaced<D>(box: Box)
    requires box.Square()
    ensures Placed<D>(Fresh(), box)
  {
  }

  // ---------- Points outside the box ----------

  function Clamp(x: real, low: real, high: real): real {
    if x < low then low else if x > high then high else x
  }

  /** The box that p goes to after k quarterings. */
  ghost function Nested<D>(box: Box, p: Point<D>, k: nat): Box
    decreases k
  {
    if k == 0 then box else Nested(box.Quarter(box.QuarterOf(p)), p, k - 1)
  }

  /** Some quartering tells the points apart. */
  ghost predicate Separable<D>(box: Box, p: Point<D>, q: Point<D>) {
    exists k :: Nested(box, p, k).QuarterOf(p) != Nested(box, p, k).QuarterOf(q)
  }

  ghost predicate SameInside<D>(box: Box, p: Point<D>, q: Point<D>) {
    Clamp(p.x, box.x1, box.x2) == Clamp(q.x, box.x1, box.x2) && Clamp(p.y, box.y1, box.y2) == Clamp(q.y, box.y1, box.y2)
  }

  ghost function Spread<D>(box: Box, p: Point<D>, q: Point<D>): real {
    Abs(Clamp(p.x, box.x1, box.x2) - Clamp(q.x, box.x1, box.x2))
      + Abs(Clamp(p.y, box.y1, box.y2) - Clamp(q.y, box.y1, box.y2))
  }

  lemma ClampHalf(x: real, low: real, high: real)
    requires low < high
    ensures var mid := (low + high) * 0.5;
      Clamp(x, low, high) == if x >= mid then Clamp(x, mid, high) else Clamp(x, low, mid)
  {
  }

  lemma ClampKept<D>(box: Box, p: Point<D>, q: Point<D>)
    requires box.Square() && box.x1 < box.x2 && box.QuarterOf(p) == box.QuarterOf(q)
    ensures var quarter := box.Quarter(box.QuarterOf(p));
      && quarter.Square() && quarter.x1 < quarter.x2 && Side(quarter) == Side(box) / 2.0
      && Spread(quarter, p, q) == Spread(box, p, q) && (SameInside(quarter, p, q) <==> SameInside(box, p, q))
  {
    hide Clamp, Abs;
    ClampHalf(p.x, box.x1, box.x2);
    ClampHalf(q.x, box.x1, box.x2);
    ClampHalf(p.y, box.y1, box.y2);
    ClampHalf(q.y, box.y1, box.y2);
  }

  lemma {:induction false} SeparatedByHalving<D>(box: Box, p: Point<D>, q: Point<D>, unit: real) returns (k: nat)
    requires box.Square() && box.x1 < box.x2 && unit > 0.0 && Spread(box, p, q) == 4.0 * unit
    ensures Nested(box, p, k).QuarterOf(p) != Nested(box, p, k).QuarterOf(q)
    decreases Steps(Side(box), unit)
  {
    if box.QuarterOf(p) != box.QuarterOf(q) {
      k := 0;
    } else {
      hide Spread, Box.Quarter, Box.QuarterOf, Steps;
      ClampKept(box, p, q);
      SpreadFits(box, p, q);
      HalfOf(Side(box), unit);
      k := SeparatedByHalving(box.Quarter(box.QuarterOf(p)), p, q, unit);
      k := k + 1;
    }
  }

  lemma SpreadFits<D>(box: Box, p: Point<D>, q: Point<D>)
    requires box.Square()
    ensures Spread(box, p, q) <= 2.0 * Side(box)
  {
  }

  ghost function Steps(side: real, unit: real): int
    requires unit > 0.0
  {
    (side / unit).Floor
  }

  lemma HalfOf(side: real, unit: real)
    requires unit > 0.0 && side >= unit
    ensures 0 <= Steps(side / 2.0, unit) < Steps(side, unit)
  {
    var r := side / unit;
    assert r >= 1.0 && side / 2.0 / unit == r / 2.0;
  }

  lemma {:induction false} NeverSeparated<D>(box: Box, p: Point<D>, q: Point<D>, k: nat)
    requires box.Square() && box.x1 < box.x2 && SameInside(box, p, q)
    ensures Nested(box, p, k).QuarterOf(p) == Nested(box, p, k).QuarterOf(q)
    decreases k
  {
    assert box.QuarterOf(p) == box.QuarterOf(q);
    if k > 0 {
      ClampKept(box, p, q);
      NeverSeparated(box.Quarter(box.QuarterOf(p)), p, q, k - 1);
    }
  }

  /** Splitting tells two points apart exactly when they differ as seen from inside the box. In a box without
      a side, or with a negative one, points do not change the quarter: there it is now or never. */
  ghost predicate ToldApart<D>(box: Box, p: Point<D>, q: Point<D>) {
    if box.x1 < box.x2 then !SameInside(box, p, q) else box.QuarterOf(p) != box.QuarterOf(q)
  }

  lemma SeparableIffToldApart<D>(box: Box, p: Point<D>, q: Point<D>)
    requires box.EqualSides()
    ensures Separable(box, p, q) <==> ToldApart(box, p, q)
  {
    if box.x1 >= box.x2 {
      if box.QuarterOf(p) == box.QuarterOf(q) {
        forall k: nat ensures Nested(box, p, k).QuarterOf(p) == Nested(box, p, k).QuarterOf(q) {
          NowOrNever(box, p, q, k);
        }
      }
      assert Nested(box, p, 0) == box;
    } else if SameInside(box, p, q) {
      forall k: nat ensures Nested(box, p, k).QuarterOf(p) == Nested(box, p, k).QuarterOf(q) {
        NeverSeparated(box, p, q, k);
      }
    } else {
      var k := SeparatedByHalving(box, p, q, Spread(box, p, q) / 4.0);
    }
  }

  lemma {:induction false} NowOrNever<D>(box: Box, p: Point<D>, q: Point<D>, k: nat)
    requires box.EqualSides() && box.x1 >= box.x2 && box.QuarterOf(p) == box.QuarterOf(q)
    ensures Nested(box, p, k).QuarterOf(p) == Nested(box, p, k).QuarterOf(q)
    decreases k
  {
    if k > 0 {
      QuarterKept(box, p);
      QuarterKept(box, q);
      NowOrNever(box.Quarter(box.QuarterOf(p)), p, q, k - 1);
    }
  }

  lemma QuarterKept<D>(box: Box, p: Point<D>)
    requires box.EqualSides() && box.x1 >= box.x2
    ensures var quarter := box.Quarter(box.QuarterOf(p));
      quarter.EqualSides() && quarter.x1 >= quarter.x2 && quarter.QuarterOf(p) == box.QuarterOf(p)
  {
  }

  /** A leaf whose point is not near p takes p in only if splitting tells the two apart ... */
  lemma {:induction false} EndsSeparated<D>(n: nat, t: Tree<D>, p: Point<D>, box: Box) returns (k: nat)
    requires t.Node? && Shaped(t) && t.leaf && t.point.Some? && !Near(t.point.value, p)
    requires InsertedIn(n, t, p, box).Some?
    ensures Nested(box, p, k).QuarterOf(p) != Nested(box, p, k).QuarterOf(t.point.value)
    decreases n
  {
    var i, q := box.QuarterOf(p), t.point.value;
    if i != box.QuarterOf(q) {
      k := 0;
    } else {
      assert ChildOr(Pushed(t, box), i) == LeafOf(q);
      k := EndsSeparated(n - 1, LeafOf(q), p, box.Quarter(i));
      k := k + 1;
    }
  }

  /** ... and if it does. */
  lemma {:induction false} SeparatedEnds<D>(k: nat, t: Tree<D>, p: Point<D>, box: Box) returns (n: nat)
    requires t.Node? && Shaped(t) && t.leaf && t.point.Some? && !Near(t.point.value, p)
    requires Nested(box, p, k).QuarterOf(p) != Nested(box, p, k).QuarterOf(t.point.value)
    ensures InsertedIn(n, t, p, box).Some?
    decreases k
  {
    var i, q := box.QuarterOf(p), t.point.value;
    if i != box.QuarterOf(q) {
      assert ChildOr(Pushed(t, box), i) == Fresh();
      n := 2;
    } else {
      assert ChildOr(Pushed(t, box), i) == LeafOf(q);
      n := SeparatedEnds(k - 1, LeafOf(q), p, box.Quarter(i));
      n := n + 1;
    }
  }

  /** The leaf on p's path is empty, or its point is near p or can be told apart from p in the leaf's box. */
  ghost predicate Admits<D>(t: Tree<D>, p: Point<D>, box: Box) {
    if t.Absent? then true
    else if t.leaf then t.point.None? || Near(t.point.value, p) || ToldApart(box, p, t.point.value)
    else |t.children| == 4 ==> Admits(t.children[box.QuarterOf(p)], p, box.Quarter(box.QuarterOf(p)))
  }

  ghost predicate Ends<D>(t: Tree<D>, p: Point<D>, box: Box)
    requires t.Node? && Shaped(t)
  {
    exists n: nat :: InsertedIn(n, t, p, box).Some?
  }

  /** Insertion of any point in or outside the box ends if and only if the leaf on its path admits it. */
  lemma {:induction false} EndsIff<D>(t: Tree<D>, p: Point<D>, box: Box)
    requires t.Node? && Shaped(t) && box.EqualSides()
    ensures Ends(t, p, box) <==> Admits(t, p, box)
    decreases t
  {
    if !t.leaf {
      InnerEndsIff(t, p, box);
    } else if t.point.None? {
      assert InsertedIn(1, t, p, box).Some?;
    } else if Near(t.point.value, p) {
      assert ChildOr(t, box.QuarterOf(p)) == Fresh();
      assert InsertedIn(2, t, p, box).Some?;
    } else {
      SeparableIffToldApart(box, p, t.point.value);
      if Ends(t, p, box) {
        var n: nat :| InsertedIn(n, t, p, box).Some?;
        var k := EndsSeparated(n, t, p, box);
      } else if Separable(box, p, t.point.value) {
        var k :| Nested(box, p, k).QuarterOf(p) != Nested(box, p, k).QuarterOf(t.point.value);
        var n := SeparatedEnds(k, t, p, box);
      }
    }
  }

  lemma {:induction false} InnerEndsIff<D>(t: Tree<D>, p: Point<D>, box: Box)
    requires t.Node? && Shaped(t) && box.EqualSides() && !t.leaf
    ensures Ends(t, p, box) <==> Admits(t, p, box)
    decreases t, 0
  {
    var i := box.QuarterOf(p);
    var c, quarter := ChildOr(t, i), box.Quarter(i);
    QuarterSides(box, i);
    if t.children[i].Absent? {
      assert InsertedIn(1, c, p, quarter).Some?;
      assert InsertedIn(2, t, p, box).Some?;
    } else {
      EndsIff(c, p, quarter);
      if Ends(c, p, quarter) {
        var n: nat :| InsertedIn(n, c, p, quarter).Some?;
        assert InsertedIn(n + 1, t, p, box).Some?;
      }
      if Ends(t, p, box) {
        var n: nat :| InsertedIn(n, t, p, box).Some?;
        assert ChildInsertedIn(n - 1, t, p, box).Some?;
        assert InsertedIn(n - 1, c, p, quarter).Some?;
      }
    }
  }

  /** Two points beyond the same corner of the box: insertion of the second never ends. Nor does that of a point
      beyond the box without a side that a single point makes. */
  lemma BeyondTheCorner<D>(d: D)
    ensures !Ends(LeafOf(Point(d, 2.0, 2.0)), Point(d, 3.0, 3.0), Box(0.0, 0.0, 1.0, 1.0))
    ensures !Ends(LeafOf(Point(d, 0.0, 0.0)), Point(d, 5.0, 5.0), Box(0.0, 0.0, 0.0, 0.0))
  {
    EndsIff(LeafOf(Point(d, 2.0, 2.0)), Point(d, 3.0, 3.0), Box(0.0, 0.0, 1.0, 1.0));
    EndsIff(LeafOf(Point(d, 0.0, 0.0)), Point(d, 5.0, 5.0), Box(0.0, 0.0, 0.0, 0.0));
  }
}
