/** The hierarchy that a treemap is made of: values are summed up, and children sorted by them. */
module Hierarchies {
  import opened Tiling
  import opened Treemaps
  import opened Wrappers

  /** What a node comes with: its value counts only without children. */
  datatype Outline = Outline(value: real, padding: Option<Padding>, children: seq<Outline>)

  function Weight(d: Outline): real {
    if d.children == [] then d.value else Sum(d.children)
  }

  function Sum(ds: seq<Outline>): real {
    if ds == [] then 0.0 else Sum(ds[..|ds| - 1]) + Weight(ds[|ds| - 1])
  }

  /** Where children add up to nothing, none of them is worth anything. */
  predicate Layable(d: Outline) {
    forall i :: 0 <= i < |d.children| ==> Layable(d.children[i]) && (Weight(d) == 0.0 ==> Weight(d.children[i]) <= 0.0)
  }

  predicate NonNegative(d: Outline) {
    if d.children == [] then d.value >= 0.0 else forall i :: 0 <= i < |d.children| ==> NonNegative(d.children[i])
  }

  /** This is so wherever no value is negative. */
  lemma {:induction false} NonNegativeLayable(d: Outline)
    requires NonNegative(d)
    ensures Layable(d) && Weight(d) >= 0.0
    decreases d
  {
    forall i | 0 <= i < |d.children| ensures Layable(d.children[i]) && 0.0 <= Weight(d.children[i]) {
      NonNegativeLayable(d.children[i]);
    }
    forall i | 0 <= i < |d.children| ensures 0.0 <= Weight(d.children[i]) <= Sum(d.children) {
      PartOfSum(d.children, i);
    }
  }

  lemma {:induction false} PartOfSum(ds: seq<Outline>, i: nat)
    requires i < |ds| && forall j :: 0 <= j < |ds| ==> Weight(ds[j]) >= 0.0
    ensures Weight(ds[i]) <= Sum(ds)
  {
    var n := |ds| - 1;
    if i < n {
      PartOfSum(ds[..n], i);
    } else {
      SumNonNegative(ds[..n]);
    }
  }

  lemma {:induction false} SumNonNegative(ds: seq<Outline>)
    requires forall j :: 0 <= j < |ds| ==> Weight(ds[j]) >= 0.0
    ensures Sum(ds) >= 0.0
  {
    if ds != [] {
      SumNonNegative(ds[..|ds| - 1]);
    }
  }

  /** The tree below the cell is that of the outline, with sums for values and children in descending order. */
  ghost predicate Shows(c: Cell, d: Outline, depth: nat)
    requires c.IsTree()
    decreases c.height
  {
    && c.value == Weight(d) && c.padding == d.padding && c.depth == depth && Descending(c.children)
    && exists ds :: multiset(ds) == multiset(d.children) && ShowAll(c, ds, depth)
  }

  ghost predicate ShowAll(c: Cell, ds: seq<Outline>, depth: nat)
    requires c.IsTree()
    decreases c.height, 0
  {
    |c.children| == |ds| && forall i :: 0 <= i < |ds| ==> Shows(c.children[i], ds[i], depth + 1)
  }

  ghost predicate Descending(cells: seq<Cell>) {
    forall i, j :: 0 <= i < j < |cells| ==> cells[i].value >= cells[j].value
  }

  /** The cells are trees of the outlines that have nothing in common. */
  ghost predicate Forest(cells: seq<Cell>, ds: seq<Outline>, depth: nat) {
    && |cells| == |ds| && Apart(cells)
    && forall i :: 0 <= i < |cells| ==> cells[i].IsTree() && Shows(cells[i], ds[i], depth)
  }

  /** Puts a cell behind those of at least its value. */
  method Insert(cells: seq<Cell>, c: Cell, ghost ds: seq<Outline>, ghost d: Outline, ghost depth: nat)
    returns (cells': seq<Cell>, ghost ds': seq<Outline>)
    requires Forest(cells + [c], ds + [d], depth) && |cells| == |ds| && Descending(cells)
    ensures Forest(cells', ds', depth) && Descending(cells') && |cells'| == |cells| + 1
    ensures multiset(cells') == multiset(cells) + multiset{c} && multiset(ds') == multiset(ds) + multiset{d}
  {
    hide Cell.IsTree, Shows, Forest, Apart;
    var i: nat := |cells|;
    while i > 0 && cells[i - 1].value < c.value
      invariant i <= |cells| && forall j :: i <= j < |cells| ==> cells[j].value < c.value
    {
      i := i - 1;
    }
    cells', ds' := cells[..i] + [c] + cells[i..], ds[..i] + [d] + ds[i..];
    ForestTrees(cells + [c], ds + [d], depth);
    InsertedOnce(cells, c, i);
    InsertedOnce(ds, d, i);
    InsertedForest(cells, c, ds, d, depth, i);
  }

  lemma InsertedOnce<A>(s: seq<A>, x: A, i: nat)
    requires i <= |s|
    ensures multiset(s[..i] + [x] + s[i..]) == multiset(s) + multiset{x}
  {
    assert s == s[..i] + s[i..];
  }

  lemma InsertedForest(cells: seq<Cell>, c: Cell, ds: seq<Outline>, d: Outline, depth: nat, i: nat)
    requires Forest(cells + [c], ds + [d], depth) && |cells| == |ds| && i <= |cells|
    ensures Forest(cells[..i] + [c] + cells[i..], ds[..i] + [d] + ds[i..], depth)
  {
    hide Cell.IsTree, Shows;
    var all, outlines := cells + [c], ds + [d];
    var all', outlines' := cells[..i] + [c] + cells[i..], ds[..i] + [d] + ds[i..];
    forall j | 0 <= j < |all'|
      ensures all'[j] == all[From(j, i, |cells|)] && outlines'[j] == outlines[From(j, i, |cells|)] {
    }
  }

  function From(j: nat, i: nat, n: nat): nat {
    if j < i then j else if j == i then n else j - 1
  }

  /** Sorts by value. */
  method SortByValue(cells0: seq<Cell>, ghost ds0: seq<Outline>, ghost depth: nat)
    returns (cells: seq<Cell>, ghost ds: seq<Outline>)
    requires Forest(cells0, ds0, depth)
    ensures Forest(cells, ds, depth) && Descending(cells)
    ensures multiset(cells) == multiset(cells0) && multiset(ds) == multiset(ds0)
  {
    hide Cell.IsTree, Shows;
    cells, ds := [], [];
    for i := 0 to |cells0|
      invariant Forest(cells, ds, depth) && Descending(cells) && |cells| == i
      invariant multiset(cells) == multiset(cells0[..i]) && multiset(ds) == multiset(ds0[..i])
    {
      assert cells0[..i + 1] == cells0[..i] + [cells0[i]] && ds0[..i + 1] == ds0[..i] + [ds0[i]];
      NextForest(cells0, ds0, depth, cells, ds, i);
      cells, ds := Insert(cells, cells0[i], ds, ds0[i], depth);
    }
    assert cells0[..|cells0|] == cells0 && ds0[..|ds0|] == ds0;
  }

  lemma NextForest(cells0: seq<Cell>, ds0: seq<Outline>, depth: nat, cells: seq<Cell>, ds: seq<Outline>, i: nat)
    requires Forest(cells0, ds0, depth) && Forest(cells, ds, depth) && i < |cells0|
    requires multiset(cells) == multiset(cells0[..i])
    ensures Forest(cells + [cells0[i]], ds + [ds0[i]], depth)
  {
    hide Cell.IsTree, Shows;
    forall j | 0 <= j < |cells| ensures exists k :: 0 <= k < i && cells[j] == cells0[k] {
      assert cells[j] in multiset(cells);
      assert cells[j] in cells0[..i];
    }
  }

  lemma GrownForest(cells: seq<Cell>, ds: seq<Outline>, depth: nat, c: Cell, d: Outline)
    requires Forest(cells, ds, depth) && c.IsTree() && Shows(c, d, depth)
    requires c !in AllCells(cells) && c.below !! AllCells(cells) && forall i :: 0 <= i < |cells| ==>
      cells[i] !in c.below
    ensures Forest(cells + [c], ds + [d], depth)
    ensures AllCells(cells + [c]) == AllCells(cells) + {c} + c.below
  {
    hide Cell.IsTree, Shows;
    assert (cells + [c])[..|cells|] == cells;
  }

  lemma SameCells(cells: seq<Cell>, cells': seq<Cell>)
    requires multiset(cells) == multiset(cells')
    ensures AllCells(cells) == AllCells(cells')
  {
    hide AllCells;
    forall i | 0 <= i < |cells| ensures cells[i] in cells' {
      assert cells[i] in multiset(cells');
    }
    forall i | 0 <= i < |cells'| ensures cells'[i] in cells {
      assert cells'[i] in multiset(cells);
    }
  }

  /** Children that add up to nothing are not worth anything. */
  lemma NothingFromNothing(d: Outline, cells: seq<Cell>, ds: seq<Outline>, depth: nat)
    requires Layable(d) && Forest(cells, ds, depth) && multiset(ds) == multiset(d.children)
    ensures forall i :: 0 <= i < |cells| && Weight(d) == 0.0 ==> cells[i].value <= 0.0
  {
    hide Cell.IsTree, Apart, Weight;
    forall i | 0 <= i < |cells| && Weight(d) == 0.0 ensures cells[i].value <= 0.0 {
      assert ds[i] in multiset(d.children);
      assert ds[i] in d.children;
    }
  }

  lemma RootShows(root: Cell, d: Outline, ds: seq<Outline>, depth: nat)
    requires root.IsTree() && Forest(root.children, ds, depth + 1) && Descending(root.children)
    requires multiset(ds) == multiset(d.children)
    requires root.value == Weight(d) && root.padding == d.padding && root.depth == depth
    ensures Shows(root, d, depth)
  {
    hide Apart;
    assert ShowAll(root, ds, depth);
  }

  /** `recurse`. */
  method Recurse(d: Outline, depth: nat) returns (root: Cell)
    requires Layable(d)
    ensures root.IsTree() && Shows(root, d, depth) && fresh(root) && fresh(root.below)
    decreases d, 1
  {
    hide Cell.IsTree, Shows, Forest, Apart, AllCells;
    if d.children == [] {
      NoForest(depth);
      ForestTrees([], [], depth);
      root := new Cell(d.value, [], d.padding, depth);
      LeafShows(root, d, depth);
      return;
    }
    var cells, v, sorted;
    ghost var ds;
    cells, v := RecurseAll(d.children, depth + 1);
    sorted, ds := SortByValue(cells, d.children, depth + 1);
    SameCells(cells, sorted);
    NothingFromNothing(d, sorted, ds, depth + 1);
    ForestTrees(sorted, ds, depth + 1);
    root := new Cell(v, sorted, d.padding, depth);
    RootShows(root, d, ds, depth);
  }

  lemma ForestTrees(cells: seq<Cell>, ds: seq<Outline>, depth: nat)
    requires Forest(cells, ds, depth)
    ensures |cells| == |ds| && Apart(cells) && forall i :: 0 <= i < |cells| ==> cells[i].IsTree()
  {
  }

  /** The loop over the children, and their sum. */
  method RecurseAll(ds: seq<Outline>, depth: nat) returns (cells: seq<Cell>, v: real)
    requires forall i :: 0 <= i < |ds| ==> Layable(ds[i])
    ensures Forest(cells, ds, depth) && v == Sum(ds) && fresh(AllCells(cells))
    decreases ds, 0
  {
    hide Cell.IsTree, Shows, Forest, Apart, AllCells;
    cells, v := [], 0.0;
    NoForest(depth);
    for i := 0 to |ds|
      invariant Forest(cells, ds[..i], depth) && v == Sum(ds[..i]) && fresh(AllCells(cells))
    {
      assert ds[..i + 1] == ds[..i] + [ds[i]];
      var child := Recurse(ds[i], depth);
      ValueShown(child, ds[i], depth);
      GrownForest(cells, ds[..i], depth, child, ds[i]);
      v := v + child.value;
      cells := cells + [child];
    }
    assert ds[..|ds|] == ds;
  }

  lemma NoForest(depth: nat)
    ensures Forest([], [], depth) && AllCells([]) == {}
  {
  }

  lemma ValueShown(c: Cell, d: Outline, depth: nat)
    requires c.IsTree() && Shows(c, d, depth)
    ensures c.value == Weight(d)
  {
  }

  lemma LeafShows(c: Cell, d: Outline, depth: nat)
    requires c.IsTree() && c.value == d.value && c.padding == d.padding && c.depth == depth
    requires c.children == [] && d.children == []
    ensures Shows(c, d, depth)
  {
    assert ShowAll(c, [], depth);
  }

  // ---------- Values and areas ----------

  predicate NoPadding(d: Outline) {
    d.padding.None? && forall i :: 0 <= i < |d.children| ==> NoPadding(d.children[i])
  }

  lemma LastOfSum(ds: seq<Outline>, d: Outline)
    ensures Sum(ds + [d]) == Sum(ds) + Weight(d)
  {
    assert (ds + [d])[..|ds|] == ds;
  }

  lemma {:induction false} SumWithout(ds: seq<Outline>, i: nat)
    requires i < |ds|
    ensures Sum(ds) == Sum(ds[..i] + ds[i + 1..]) + Weight(ds[i])
    decreases |ds|
  {
    hide Weight;
    var n := |ds| - 1;
    if i < n {
      SumWithout(ds[..n], i);
      assert ds[..i] + ds[i + 1..] == ds[..n][..i] + ds[..n][i + 1..] + [ds[n]];
      LastOfSum(ds[..n][..i] + ds[..n][i + 1..], ds[n]);
    } else {
      assert ds[..i] + ds[i + 1..] == ds[..n];
    }
  }

  lemma BothWithout<A>(s: seq<A>, t: seq<A>, i: nat)
    requires multiset(s) == multiset(t) && s != [] && i < |t| && t[i] == s[|s| - 1]
    ensures multiset(s[..|s| - 1]) == multiset(t[..i] + t[i + 1..])
  {
    assert s == s[..|s| - 1] + [t[i]];
    assert t == t[..i] + [t[i]] + t[i + 1..];
    assert multiset(t[..i] + t[i + 1..]) == multiset(t) - multiset{t[i]};
  }

  /** The order of summands does not matter. */
  lemma {:induction false} SumInAnyOrder(ds: seq<Outline>, es: seq<Outline>)
    requires multiset(ds) == multiset(es)
    ensures Sum(ds) == Sum(es)
    decreases |ds|
  {
    hide Weight;
    if ds == [] {
      assert |multiset(es)| == 0;
    } else {
      var n := |ds| - 1;
      assert ds[n] in multiset(ds);
      assert ds[n] in multiset(es);
      var i :| 0 <= i < |es| && es[i] == ds[n];
      BothWithout(ds, es, i);
      SumInAnyOrder(ds[..n], es[..i] + es[i + 1..]);
      SumWithout(es, i);
    }
  }

  lemma {:induction false} ValuesShown(cells: seq<Cell>, ds: seq<Outline>)
    requires |cells| == |ds| && forall i :: 0 <= i < |ds| ==> cells[i].value == Weight(ds[i])
    ensures ValueSum(cells) == Sum(ds)
  {
    if cells != [] {
      ValuesShown(cells[..|cells| - 1], ds[..|ds| - 1]);
    }
  }

  /** A leaf of the tree has the outline's value, and every other cell the sum of the values of its children. */
  lemma ShownValues(c: Cell, d: Outline, depth: nat)
    requires c.IsTree() && Shows(c, d, depth)
    ensures |c.children| == |d.children|
    ensures c.value == if d.children == [] then d.value else ValueSum(c.children)
  {
    hide Cell.IsTree;
    ChildrenAreTrees(c);
    var ds :| multiset(ds) == multiset(d.children) && ShowAll(c, ds, depth);
    assert |multiset(ds)| == |multiset(d.children)|;
    forall i | 0 <= i < |ds| ensures c.children[i].value == Weight(ds[i]) {
      ValueShown(c.children[i], ds[i], depth + 1);
    }
    ValuesShown(c.children, ds);
    SumInAnyOrder(ds, d.children);
  }

  /** The tree of an outline without negative values has sums for values. */
  lemma {:induction false} ShownSummed(c: Cell, d: Outline, depth: nat)
    requires c.IsTree() && Shows(c, d, depth) && NonNegative(d)
    ensures AllSummed(c) && (NoPadding(d) ==> Unpadded(c))
    decreases c.height
  {
    hide Cell.IsTree, Weight;
    ChildrenAreTrees(c);
    var ds :| multiset(ds) == multiset(d.children) && ShowAll(c, ds, depth);
    NonNegativeLayable(d);
    forall i | 0 <= i < |ds|
      ensures AllSummed(c.children[i]) && (NoPadding(d) ==> Unpadded(c.children[i]))
      ensures c.children[i].value == Weight(ds[i]) >= 0.0
    {
      assert ds[i] in multiset(d.children);
      assert ds[i] in d.children;
      NonNegativeLayable(ds[i]);
      ShownSummed(c.children[i], ds[i], depth + 1);
    }
    ValuesShown(c.children, ds);
    SumInAnyOrder(ds, d.children);
    if c.children != [] {
      assert multiset(d.children) != multiset([]);
      SumOfChildren(d);
    }
  }

  lemma SumOfChildren(d: Outline)
    requires d.children != []
    ensures Weight(d) == Sum(d.children)
  {
  }

  /** What the layout of a tree of sums means for its areas. */
  lemma AreasShown(layout: Layout, root: Cell, d: Outline)
    requires root.IsTree() && Shows(root, d, 0) && AllLaidOut(layout, root)
    ensures layout.Exact() && NonNegative(d) ==> AllInProportion(root)
    ensures layout.Exact() && NonNegative(d) && NoPadding(d) ==> forall c :: c in root.below ==>
      InRatio(c.Rectangle().Area(), c.value, root.Rectangle().Area(), root.value)
  {
    hide Cell.IsTree, Shows, AllLaidOut, AllInProportion, InRatio, Rect.Area, Layout.Exact;
    if layout.Exact() && NonNegative(d) {
      ShownSummed(root, d, 0);
      SharedByValue(layout, root);
      if NoPadding(d) {
        forall c | c in root.below ensures InRatio(c.Rectangle().Area(), c.value, root.Rectangle().Area(), root.value) {
          AreasAsValues(layout, root, c);
        }
      }
    }
  }

  /** `treemap`: makes the hierarchy and lays it out in a rectangle. */
  method Treemap(layout: Layout, d: Outline, width: real, height: real) returns (root: Cell)
    requires layout.Valid() && Layable(d) && width >= 0.0 && height >= 0.0
    ensures root.IsTree() && Shows(root, d, 0) && AllLaidOut(layout, root)
    ensures root.Rectangle() == Rect(0.0, 0.0, width, height)
    ensures layout.Exact() && NonNegative(d) ==> AllInProportion(root)
    ensures layout.Exact() && NonNegative(d) && NoPadding(d) ==> forall c :: c in root.below ==>
      InRatio(c.Rectangle().Area(), c.value, Rect(0.0, 0.0, width, height).Area(), root.value)
  {
    hide Cell.IsTree, Shows, AllLaidOut, Layable, AllInProportion, InRatio, Rect.Area, Layout.Exact, NonNegative;
    hide NoPadding;
    root := Recurse(d, 0);
    root.x, root.y, root.dx, root.dy := 0.0, 0.0, width, height;
    NotBelowItself(root);
    layout.Scale([root], width * height, root.value);
    layout.Squarify(root);
    AreasShown(layout, root, d);
  }
}
