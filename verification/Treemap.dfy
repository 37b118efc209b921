/** Squarified treemaps: the cells below a node are laid out in rows that tile its rectangle. */
module Treemaps {
  import opened Tiling
  import opened Wrappers

  datatype Padding = Padding(top: real, right: real, bottom: real, left: real)

  datatype Mode = Squarify | Slice | Dice | SliceDice

  datatype Score = Finite(value: real) | Infinite {
    predicate AtMost(other: Score) {
      other.Infinite? || (Finite? && value <= other.value)
    }
  }

  function Min(a: real, b: real): real { if a < b then a else b }

  function Max(a: real, b: real): real { if a < b then b else a }

  class Cell {
    const value: real
    const children: seq<Cell>
    const padding: Option<Padding>
    const depth: nat
    var x: real
    var y: real
    var dx: real
    var dy: real
    var area: real
    var z: bool
    /** The cells below this one, which is as high as height. */
    ghost const below: set<Cell>
    ghost const height: nat

    /** Cells with their children make a tree, and the children of a cell without a value have none. */
    ghost predicate IsTree()
      decreases height
    {
      && (forall i :: 0 <= i < |children| ==> children[i].height < height && children[i].IsTree())
      && (forall i :: 0 <= i < |children| ==> children[i] in below && children[i].below <= below)
      && (forall i :: 0 <= i < |children| && value == 0.0 ==> children[i].value <= 0.0)
      && (forall i :: 0 <= i < |children| ==> this !in children[i].below && children[i] != this)
      && Apart(children)
      && (forall c :: c in below ==> exists i :: 0 <= i < |children| && (c == children[i] || c in children[i].below))
    }

    constructor (value: real, children: seq<Cell>, padding: Option<Padding>, depth: nat)
      requires Apart(children) && forall i :: 0 <= i < |children| ==> children[i].IsTree()
      requires forall i :: 0 <= i < |children| && value == 0.0 ==> children[i].value <= 0.0
      ensures IsTree() && below == AllCells(children)
      ensures this.value == value && this.children == children && this.padding == padding && this.depth == depth
    {
      hide AllCells, HeightOf;
      this.value, this.children, this.padding, this.depth := value, children, padding, depth;
      below, height := AllCells(children), HeightOf(children);
      x, y, dx, dy, area, z := 0.0, 0.0, 0.0, 0.0, 0.0, false;
    }

    ghost function Rectangle(): Rect
      reads this`x, this`y, this`dx, this`dy
    {
      Rect(x, y, dx, dy)
    }
  }

  /** No two of the cells are the same or have a cell in common below. */
  ghost predicate Apart(cells: seq<Cell>) {
    forall i, j :: 0 <= i < |cells| && 0 <= j < |cells| && i != j ==>
      cells[i] != cells[j] && cells[i] !in cells[j].below && cells[i].below !! cells[j].below
  }

  /** The cells and all cells below them. */
  ghost function AllCells(cells: seq<Cell>): (all: set<Cell>)
    ensures forall i :: 0 <= i < |cells| ==> cells[i] in all && cells[i].below <= all
    ensures forall c :: c in all ==> exists i :: 0 <= i < |cells| && (c == cells[i] || c in cells[i].below)
  {
    if cells == [] then {} else
    var n := |cells| - 1;
    AllCells(cells[..n]) + {cells[n]} + cells[n].below
  }

  /** The height of a cell above the cells. */
  ghost function HeightOf(cells: seq<Cell>): (height: nat)
    ensures forall i :: 0 <= i < |cells| ==> cells[i].height < height
  {
    if cells == [] then 0 else
    var n := |cells| - 1;
    var h := HeightOf(cells[..n]);
    if h > cells[n].height then h else cells[n].height + 1
  }

  /** A side of length d is moved in at both ends, by a and b, or shrinks to the middle of where these would be. */
  predicate Inset(x: real, d: real, a: real, b: real, px: real, pd: real) {
    if a + b <= d then px == x + a && px + pd == x + d - b
    else pd == 0.0 && 2.0 * px == (x + a) + (x + d - b)
  }

  /** `d3_layout_treemapPad`: a rectangle without its padding, which may leave nothing. */
  function Padded(r: Rect, padding: Option<Padding>): (p: Rect)
    requires r.Proper()
    ensures p.Proper() && (padding.None? ==> p == r)
    ensures padding.Some? ==> Inset(r.x, r.dx, padding.value.left, padding.value.right, p.x, p.dx)
    ensures padding.Some? ==> Inset(r.y, r.dy, padding.value.top, padding.value.bottom, p.y, p.dy)
  {
    if padding.None? then r else
    var pad := padding.value;
    var x, y := r.x + pad.left, r.y + pad.top;
    var dx, dy := r.dx - pad.right - pad.left, r.dy - pad.top - pad.bottom;
    Rect(if dx < 0.0 then x + dx / 2.0 else x, if dy < 0.0 then y + dy / 2.0 else y, Max(dx, 0.0), Max(dy, 0.0))
  }

  ghost predicate Distinct(cells: seq<Cell>) {
    forall i, j :: 0 <= i < j < |cells| ==> cells[i] != cells[j]
  }

  /** Where the cells have been put. */
  ghost predicate At(cells: seq<Cell>, tiles: seq<Rect>)
    reads cells`x, cells`y, cells`dx, cells`dy
  {
    |tiles| == |cells| && forall i :: 0 <= i < |cells| ==> cells[i].Rectangle() == tiles[i]
  }

  ghost predicate AreasOK(cells: seq<Cell>)
    reads cells`area
  {
    forall i :: 0 <= i < |cells| ==> cells[i].area >= 0.0
  }

  /** The rectangles have the areas that the cells were given. */
  ghost predicate Exactly(cells: seq<Cell>, tiles: seq<Rect>)
    reads cells`area
  {
    |tiles| == |cells| && forall i :: 0 <= i < |cells| ==> tiles[i].Area() == cells[i].area
  }

  ghost function AreaSum(cells: seq<Cell>): real
    reads cells`area
  {
    if cells == [] then 0.0 else AreaSum(cells[..|cells| - 1]) + cells[|cells| - 1].area
  }

  ghost function Areas(cells: seq<Cell>): (areas: seq<real>)
    reads cells`area
    ensures |areas| == |cells| && forall i :: 0 <= i < |cells| ==> areas[i] == cells[i].area
  {
    if cells == [] then [] else Areas(cells[..|cells| - 1]) + [cells[|cells| - 1].area]
  }

  ghost function Backwards<A>(s: seq<A>): (t: seq<A>)
    ensures |t| == |s| && forall i :: 0 <= i < |s| ==> t[i] == s[|s| - 1 - i]
  {
    seq(|s|, i requires 0 <= i < |s| => s[|s| - 1 - i])
  }

  ghost function Total(areas: seq<real>): real {
    if areas == [] then 0.0 else Total(areas[..|areas| - 1]) + areas[|areas| - 1]
  }

  ghost function FlatAreas(rows: seq<Row>): seq<real> {
    if rows == [] then [] else FlatAreas(rows[..|rows| - 1]) + rows[|rows| - 1].areas
  }

  ghost function FlatTiles(rows: seq<Row>): seq<Rect> {
    if rows == [] then [] else FlatTiles(rows[..|rows| - 1]) + rows[|rows| - 1].tiles
  }

  lemma {:induction false} TotalOfAreas(cells: seq<Cell>)
    ensures Total(Areas(cells)) == AreaSum(cells)
  {
    if cells != [] {
      var n := |cells| - 1;
      TotalOfAreas(cells[..n]);
      assert Areas(cells)[..n] == Areas(cells[..n]);
    }
  }

  /** A row of cells by their areas: the rectangle it is taken off, the side it lies along, where its cells go and what
      it leaves, all if it is flushed. */
  datatype Row = Row(areas: seq<real>, tiles: seq<Rect>, rect: Rect, side: real, rest: Rect, flush: bool)

  function Times(a: real, b: real): (c: real)
    ensures a > 0.0 && b > 0.0 ==> c > 0.0
  {
    a * b
  }

  function Squared(u: real): (q: real)
    ensures u > 0.0 ==> q > 0.0
  {
    Times(u, u)
  }

  /** The ratio of the sides of a cell of area r, relative to the preferred one, in a row of area s along a side u,
      and its inverse. */
  function Across(r: real, s: real, u: real, ratio: real): real
    requires s > 0.0
  {
    Squared(u) * r * ratio / Squared(s)
  }

  function Along(r: real, s: real, u: real, ratio: real): real
    requires u > 0.0 && r > 0.0 && ratio > 0.0
  {
    Product(Squared(u), r, ratio);
    Squared(s) / (Squared(u) * r * ratio)
  }

  lemma Product(k: real, a: real, ratio: real)
    requires k > 0.0 && a > 0.0 && ratio > 0.0
    ensures k * a * ratio > 0.0
  {
    assert k * a > 0.0;
  }

  /** How far a cell of area r is from the preferred ratio of its sides. */
  function Badness(r: real, s: real, u: real, ratio: real): real
    requires r > 0.0 && s > 0.0 && u > 0.0 && ratio > 0.0
  {
    Max(Across(r, s, u, ratio), Along(r, s, u, ratio))
  }

  class Layout {
    const mode: Mode
    const ratio: real
    const round: real -> real

    ghost predicate Valid() {
      ratio > 0.0 && forall t: real :: t >= 0.0 ==> round(t) >= 0.0
    }

    /** Sides are not rounded. */
    ghost predicate Exact() {
      forall t: real :: t >= 0.0 ==> round(t) == t
    }

    constructor (mode: Mode, ratio: real, round: real -> real)
      ensures this.mode == mode && this.ratio == ratio && this.round == round
    {
      this.mode, this.ratio, this.round := mode, ratio, round;
    }

    /** How much of what is left of a row's length a cell gets if the row is v thick. */
    function Rounded(a: real, b: real): real {
      if b != 0.0 then round(a / b) else 0.0
    }

    /** How much of what is left of a row's length a cell gets if the row is v thick. */
    function Share(area: real, left: real, v: real): (w: real)
      requires Valid() && area >= 0.0 && left >= 0.0 && v >= 0.0
      ensures w == Min(left, Rounded(area, v)) && 0.0 <= w <= left
      ensures Exact() ==> w == Min(left, Quotient(area, v))
    {
      if v != 0.0 then assert area / v >= 0.0; Min(left, round(area / v)) else 0.0
    }

    /** The first n rectangles of a row are as wide as their areas ask, as far as there is room. */
    ghost predicate WidthsShared(areas: seq<real>, tiles: seq<Rect>, n: nat, r: Rect) {
      && n <= |areas| && n <= |tiles|
      && forall i :: 0 <= i < n ==> tiles[i].dx == Min(r.x + r.dx - tiles[i].x, Rounded(areas[i], r.dy))
    }

    ghost predicate HeightsShared(areas: seq<real>, tiles: seq<Rect>, n: nat, r: Rect) {
      && n <= |areas| && n <= |tiles|
      && forall i :: 0 <= i < n ==> tiles[i].dy == Min(r.y + r.dy - tiles[i].y, Rounded(areas[i], r.dx))
    }

    /** How far a row reaches into the rectangle, which is w that way. */
    ghost function Depth(area: real, side: real, w: real, flush: bool): real {
      if flush then w else Min(w, Rounded(area, side))
    }

    /** The row lies along its side as `position` puts it: next to one another as wide as their areas ask, the last one
        getting what is left. */
    ghost predicate IsRow(r: Row) {
      && |r.tiles| == |r.areas| > 0
      && if r.side == r.rect.dx then
           var v := Depth(Total(r.areas), r.side, r.rect.dy, r.flush);
           var strip := Rect(r.rect.x, r.rect.y, r.rect.dx, v);
           && InRow(r.tiles, strip) && WidthsShared(r.areas, r.tiles, |r.tiles| - 1, strip)
           && r.rest == Rect(r.rect.x, r.rect.y + v, r.rect.dx, r.rect.dy - v)
         else
           var v := Depth(Total(r.areas), r.side, r.rect.dx, r.flush);
           var strip := Rect(r.rect.x, r.rect.y, v, r.rect.dy);
           && InColumn(r.tiles, strip) && HeightsShared(r.areas, r.tiles, |r.tiles| - 1, strip)
           && r.rest == Rect(r.rect.x + v, r.rect.y, r.rect.dx - v, r.rect.dy)
    }

    lemma NoWidths(areas: seq<real>, r: Rect)
      ensures WidthsShared(areas, [], 0, r)
    {
    }

    lemma NextWidth(areas: seq<real>, tiles: seq<Rect>, r: Rect, t: Rect)
      requires WidthsShared(areas, tiles, |tiles|, r) && |tiles| < |areas|
      requires t.dx == Min(r.x + r.dx - t.x, Rounded(areas[|tiles|], r.dy))
      ensures WidthsShared(areas, tiles + [t], |tiles| + 1, r)
    {
    }

    lemma LastWidth(areas: seq<real>, tiles: seq<Rect>, r: Rect, t: Rect)
      requires WidthsShared(areas, tiles, |tiles|, r) && tiles != []
      ensures WidthsShared(areas, tiles[|tiles| - 1 := t], |tiles| - 1, r)
    {
    }

    lemma NoHeights(areas: seq<real>, r: Rect)
      ensures HeightsShared(areas, [], 0, r)
    {
    }

    lemma NextHeight(areas: seq<real>, tiles: seq<Rect>, r: Rect, t: Rect)
      requires HeightsShared(areas, tiles, |tiles|, r) && |tiles| < |areas|
      requires t.dy == Min(r.y + r.dy - t.y, Rounded(areas[|tiles|], r.dx))
      ensures HeightsShared(areas, tiles + [t], |tiles| + 1, r)
    {
    }

    lemma LastHeight(areas: seq<real>, tiles: seq<Rect>, r: Rect, t: Rect)
      requires HeightsShared(areas, tiles, |tiles|, r) && tiles != []
      ensures HeightsShared(areas, tiles[|tiles| - 1 := t], |tiles| - 1, r)
    {
    }

    /** Lays cells out from left to right, v high, each as its area asks, up to x. */
    method FillRow(row: seq<Cell>, rect: Rect, v: real) returns (x: real, ghost tiles: seq<Rect>)
      requires Valid() && Distinct(row) && AreasOK(row) && rect.Proper() && v >= 0.0
      modifies row`x, row`y, row`dx, row`dy
      ensures At(row, tiles) && RowSoFar(tiles, Rect(rect.x, rect.y, rect.dx, v), x)
      ensures Exact() && Filled(row, rect.dx, v) ==> Measured(row, tiles, x - rect.x, v)
      ensures WidthsShared(Areas(row), tiles, |row|, Rect(rect.x, rect.y, rect.dx, v))
    {
      hide RowSoFar, Measured, Rect.Area, Filled, AreaSum, Share, Exact, Quotient, Valid, Areas, WidthsShared, Rounded;
      x := rect.x;
      tiles := [];
      ghost var r := Rect(rect.x, rect.y, rect.dx, v);
      ghost var exact := Exact() && Filled(row, rect.dx, v);
      RowStarts(r);
      NoneMeasured(row, v);
      NoWidths(Areas(row), r);
      for i := 0 to |row|
        invariant AreasOK(row) && RowSoFar(tiles, r, x) && x <= rect.x + rect.dx
        invariant exact ==> Measured(row, tiles, x - rect.x, v)
        invariant WidthsShared(Areas(row), tiles, i, r)
        invariant |tiles| == i && forall k :: 0 <= k < i ==> row[k].Rectangle() == tiles[k]
      {
        var o := row[i];
        o.x, o.y, o.dy := x, rect.y, v;
        o.dx := Share(o.area, rect.x + rect.dx - x, v);
        RowMeasured(row, tiles, r, x, o.Rectangle(), exact);
        NextWidth(Areas(row), tiles, r, o.Rectangle());
        tiles := tiles + [o.Rectangle()];
        x := x + o.dx;
      }
    }

    /** Lays cells out from left to right, v high; the last one gets what is left. */
    method PlaceRow(row: seq<Cell>, rect: Rect, v: real) returns (ghost tiles: seq<Rect>)
      requires Valid() && row != [] && Distinct(row) && AreasOK(row) && rect.Proper() && v >= 0.0
      modifies row`x, row`y, row`dx, row`dy, row`z
      ensures |tiles| == |row| && At(row, tiles) && InRow(tiles, Rect(rect.x, rect.y, rect.dx, v))
      ensures Exact() && Filled(row, rect.dx, v) ==> Exactly(row, tiles)
      ensures WidthsShared(Areas(row), tiles, |row| - 1, Rect(rect.x, rect.y, rect.dx, v))
    {
      hide RowSoFar, InRow, Measured, Exactly, Rect.Area, Filled, AreaSum, Exact, Valid, Areas, WidthsShared;
      ghost var r := Rect(rect.x, rect.y, rect.dx, v);
      var x;
      x, tiles := FillRow(row, rect, v);
      var last := |row| - 1;
      row[last].z := true;
      row[last].dx := row[last].dx + (rect.x + rect.dx - x);
      RowDone(row, tiles, r, x, row[last].Rectangle(), Exact() && Filled(row, rect.dx, v));
      LastWidth(Areas(row), tiles, r, row[last].Rectangle());
      tiles := tiles[last := row[last].Rectangle()];
    }

    /** Lays cells out from top to bottom, v wide, each as its area asks, up to y. */
    method FillColumn(row: seq<Cell>, rect: Rect, v: real) returns (y: real, ghost tiles: seq<Rect>)
      requires Valid() && Distinct(row) && AreasOK(row) && rect.Proper() && v >= 0.0
      modifies row`x, row`y, row`dx, row`dy
      ensures At(row, tiles) && ColumnSoFar(tiles, Rect(rect.x, rect.y, v, rect.dy), y)
      ensures Exact() && Filled(row, rect.dy, v) ==> Measured(row, tiles, y - rect.y, v)
      ensures HeightsShared(Areas(row), tiles, |row|, Rect(rect.x, rect.y, v, rect.dy))
    {
      hide ColumnSoFar, Measured, Rect.Area, Filled, AreaSum, Share, Exact, Quotient, Valid, Areas, HeightsShared;
      hide Rounded;
      y := rect.y;
      tiles := [];
      ghost var r := Rect(rect.x, rect.y, v, rect.dy);
      ghost var exact := Exact() && Filled(row, rect.dy, v);
      ColumnStarts(r);
      NoneMeasured(row, v);
      NoHeights(Areas(row), r);
      for i := 0 to |row|
        invariant AreasOK(row) && ColumnSoFar(tiles, r, y) && y <= rect.y + rect.dy
        invariant exact ==> Measured(row, tiles, y - rect.y, v)
        invariant HeightsShared(Areas(row), tiles, i, r)
        invariant |tiles| == i && forall k :: 0 <= k < i ==> row[k].Rectangle() == tiles[k]
      {
        var o := row[i];
        o.x, o.y, o.dx := rect.x, y, v;
        o.dy := Share(o.area, rect.y + rect.dy - y, v);
        ColumnMeasured(row, tiles, r, y, o.Rectangle(), exact);
        NextHeight(Areas(row), tiles, r, o.Rectangle());
        tiles := tiles + [o.Rectangle()];
        y := y + o.dy;
      }
    }

    /** Lays cells out from top to bottom, v wide; the last one gets what is left. */
    method PlaceColumn(row: seq<Cell>, rect: Rect, v: real) returns (ghost tiles: seq<Rect>)
      requires Valid() && row != [] && Distinct(row) && AreasOK(row) && rect.Proper() && v >= 0.0
      modifies row`x, row`y, row`dx, row`dy, row`z
      ensures |tiles| == |row| && At(row, tiles) && InColumn(tiles, Rect(rect.x, rect.y, v, rect.dy))
      ensures Exact() && Filled(row, rect.dy, v) ==> Exactly(row, tiles)
      ensures HeightsShared(Areas(row), tiles, |row| - 1, Rect(rect.x, rect.y, v, rect.dy))
    {
      hide ColumnSoFar, InColumn, Measured, Exactly, Rect.Area, Filled, AreaSum, Exact, Valid, Areas, HeightsShared;
      ghost var r := Rect(rect.x, rect.y, v, rect.dy);
      var y;
      y, tiles := FillColumn(row, rect, v);
      var last := |row| - 1;
      row[last].z := false;
      row[last].dy := row[last].dy + (rect.y + rect.dy - y);
      ColumnDone(row, tiles, r, y, row[last].Rectangle(), Exact() && Filled(row, rect.dy, v));
      LastHeight(Areas(row), tiles, r, row[last].Rectangle());
      tiles := tiles[last := row[last].Rectangle()];
    }

    lemma RoundedArea(area: real, u: real, v: real)
      requires Valid() && area >= 0.0 && u >= 0.0 && v == if u != 0.0 then round(area / u) else 0.0
      ensures v >= 0.0 && v == Rounded(area, u)
    {
    }

    /** `position`: takes a row off rect, as high or wide as its area and the rounding ask, or all that is left. */
    method Position(row: seq<Cell>, rowArea: real, u: real, rect: Rect, flush: bool)
      returns (rest: Rect, ghost tiles: seq<Rect>)
      requires Valid() && row != [] && Distinct(row) && AreasOK(row) && rect.Proper() && u >= 0.0
      requires rowArea == AreaSum(row) >= 0.0
      modifies row`x, row`y, row`dx, row`dy, row`z
      ensures At(row, tiles) && Tiles(tiles + [rest], rect) && rest.Proper()
      ensures flush ==> rest.dx == 0.0 || rest.dy == 0.0
      ensures IsRow(Row(Areas(row), tiles, rect, u, rest, flush))
      ensures Exact() && Roomy(rowArea, u, rect, flush) ==>
        Exactly(row, tiles) && rest.Area() == rect.Area() - rowArea
    {
      hide At, Tiles, InRow, InColumn, Distinct, AreasOK, AreaSum, Exactly, Rect.Area, Filled, Roomy, Areas;
      hide WidthsShared, HeightsShared, Rounded;
      ghost var exact := Exact() && Roomy(rowArea, u, rect, flush);
      TotalOfAreas(row);
      var v := if u != 0.0 then round(rowArea / u) else 0.0;
      RoundedArea(rowArea, u, v);
      if u == rect.dx {
        if flush || v > rect.dy {
          v := rect.dy;
        }
        if exact { Thickness(row, rowArea, u, rect, rect.dy, flush, v); }
        tiles := PlaceRow(row, rect, v);
        rest := Rect(rect.x, rect.y + v, rect.dx, rect.dy - v);
        RowOff(tiles, rect, v);
      } else {
        if flush || v > rect.dx {
          v := rect.dx;
        }
        if exact { Thickness(row, rowArea, u, rect, rect.dx, flush, v); }
        tiles := PlaceColumn(row, rect, v);
        rest := Rect(rect.x + v, rect.y, rect.dx - v, rect.dy);
        ColumnOff(tiles, rect, v);
      }
    }

    /** `scale`: areas in proportion to the values, none for values below zero or of the other sign than the total. */
    method Scale(cells: seq<Cell>, size: real, total: real)
      requires Distinct(cells) && forall i :: 0 <= i < |cells| && total == 0.0 ==> cells[i].value <= 0.0
      modifies cells`area
      ensures AreasOK(cells) && Scaled(cells, size, total)
    {
      for i := 0 to |cells|
        invariant forall k :: 0 <= k < i ==>
          cells[k].area == if total == 0.0 then 0.0 else Max(cells[k].value * Max(size / total, 0.0), 0.0)
      {
        var area := if total == 0.0 then 0.0 else cells[i].value * Max(size / total, 0.0);
        cells[i].area := Max(area, 0.0);
      }
    }

    /** The least and the greatest area in a row, apart from zero. */
    method Extremes(row: seq<Cell>) returns (rmin: Score, rmax: real)
      requires AreasOK(row)
      ensures rmin.Infinite? <==> AreaSum(row) == 0.0
      ensures rmin.Finite? ==> 0.0 < rmin.value && IsExtreme(row, rmin.value, rmax)
    {
      hide IsExtreme;
      rmin, rmax := Infinite, 0.0;
      for i := 0 to |row|
        invariant rmin.Finite? ==> 0.0 < rmin.value && IsExtreme(row[..i], rmin.value, rmax) && AreaSum(row[..i]) > 0.0
        invariant rmin.Infinite? ==> rmax == 0.0 && AreaSum(row[..i]) == 0.0 && forall k :: 0 <= k < i ==>
          row[k].area == 0.0
      {
        var r := row[i].area;
        assert row[..i + 1] == row[..i] + [row[i]] && row[..i + 1][..i] == row[..i];
        if r != 0.0 {
          NextExtreme(row[..i], row[i], rmin, rmax);
          rmin := if rmin.Infinite? || r < rmin.value then Finite(r) else rmin;
          rmax := if r > rmax then r else rmax;
        } else if rmin.Finite? {
          NextExtreme(row[..i], row[i], rmin, rmax);
        }
      }
      assert row[..|row|] == row;
    }

    /** The worst ratio of sides in a row along u, infinite exactly without area or side. */
    ghost predicate IsScore(areas: seq<real>, u: real, score: Score) {
      match score
      case Infinite => Total(areas) == 0.0 || u == 0.0
      case Finite(w) => Total(areas) > 0.0 && u > 0.0 && ratio > 0.0 && IsWorst(areas, Total(areas), u, ratio, w)
    }

    lemma ScoreOnce(areas: seq<real>, u: real, s: Score, t: Score)
      requires IsScore(areas, u, s) && IsScore(areas, u, t)
      ensures s == t
    {
    }

    /** With one cell more, the worst ratio in the row is no worse than before ... */
    ghost predicate NoWorse(areas: seq<real>, next: real, u: real) {
      exists s, t :: IsScore(areas, u, s) && IsScore(areas + [next], u, t) && t.AtMost(s)
    }

    /** ... or it is. */
    ghost predicate Worse(areas: seq<real>, next: real, u: real) {
      exists s, t :: IsScore(areas, u, s) && IsScore(areas + [next], u, t) && !t.AtMost(s)
    }

    lemma NotBoth(areas: seq<real>, next: real, u: real)
      ensures !(NoWorse(areas, next, u) && Worse(areas, next, u))
    {
      if NoWorse(areas, next, u) && Worse(areas, next, u) {
        var s, t :| IsScore(areas, u, s) && IsScore(areas + [next], u, t) && t.AtMost(s);
        var s', t' :| IsScore(areas, u, s') && IsScore(areas + [next], u, t') && !t'.AtMost(s');
        ScoreOnce(areas, u, s, s');
        ScoreOnce(areas + [next], u, t, t');
        assert false;
      }
    }

    /** Every cell but the first left the ratios no worse. */
    ghost predicate Kept(areas: seq<real>, u: real) {
      forall n :: 1 <= n < |areas| ==> NoWorse(areas[..n], areas[n], u)
    }

    /** The rows so far, with none flushed, and where the next one is laid out: along the lesser side of what the one
        before leaves. */
    ghost predicate RowsSoFar(rows: seq<Row>, whole: Rect, side: real, rect: Rect, u: real) {
      if rows == [] then rect == whole && u == side else
      var n := |rows| - 1;
      && !rows[n].flush && IsRow(rows[n]) && RowsSoFar(rows[..n], whole, side, rows[n].rect, rows[n].side)
      && rect == rows[n].rest && u == Min(rect.dx, rect.dy)
    }

    /** Each row was closed because the next child would have made it worse. */
    ghost predicate Greedy(rows: seq<Row>, next: real) {
      rows == [] ||
      var n := |rows| - 1;
      && rows[n].areas != [] && Kept(rows[n].areas, rows[n].side) && Worse(rows[n].areas, next, rows[n].side)
      && Greedy(rows[..n], rows[n].areas[0])
    }

    /** How areas, from the last child's on, are laid out: in one row along the side, or squarified. */
    ghost predicate InRows(areas: seq<real>, whole: Rect, side: real, rows: seq<Row>) {
      && rows != [] && FlatAreas(rows) == areas
      && var n := |rows| - 1;
      && rows[n].flush && IsRow(rows[n]) && RowsSoFar(rows[..n], whole, side, rows[n].rect, rows[n].side)
      && if mode.Squarify? then Kept(rows[n].areas, rows[n].side) && Greedy(rows[..n], rows[n].areas[0]) else n == 0
    }

    /** The loop over the children: areas is what there is to lay out, rowAreas what is in the row that is not
        closed. */
    ghost predicate Going(areas: seq<real>, rows: seq<Row>, rowAreas: seq<real>, whole: Rect, side: real, rect: Rect,
        u: real, best: Score) {
      && FlatAreas(rows) + rowAreas <= areas && RowsSoFar(rows, whole, side, rect, u)
      && (mode.Squarify? ==> Kept(rowAreas, u) && (rowAreas != [] ==> IsScore(rowAreas, u, best)))
      && (mode.Squarify? && |FlatAreas(rows)| < |areas| ==> Greedy(rows, areas[|FlatAreas(rows)|]))
      && (!mode.Squarify? ==> rows == [])
    }

    lemma GoingStarts(areas: seq<real>, whole: Rect, side: real)
      ensures Going(areas, [], [], whole, side, whole, side, Infinite)
    {
    }

    lemma KeptMore(areas: seq<real>, next: real, u: real)
      requires Kept(areas, u) && (areas != [] ==> NoWorse(areas, next, u))
      ensures Kept(areas + [next], u)
    {
      hide NoWorse;
      var all := areas + [next];
      forall n | 1 <= n < |all| ensures NoWorse(all[..n], all[n], u) {
        if n < |areas| {
          assert all[..n] == areas[..n];
        } else {
          assert all[..n] == areas;
        }
      }
    }

    lemma GoingAccepts(areas: seq<real>, rows: seq<Row>, rowAreas: seq<real>, whole: Rect, side: real, rect: Rect,
        u: real, best: Score, next: real, score: Score)
      requires Going(areas, rows, rowAreas, whole, side, rect, u, best)
      requires var n := |FlatAreas(rows)| + |rowAreas|; n < |areas| && next == areas[n]
      requires score.AtMost(best) && (mode.Squarify? ==> IsScore(rowAreas + [next], u, score))
      ensures Going(areas, rows, rowAreas + [next], whole, side, rect, u, score)
    {
      hide IsScore, Kept, RowsSoFar, Greedy;
      assert FlatAreas(rows) + (rowAreas + [next]) == areas[..|FlatAreas(rows)| + |rowAreas| + 1];
      if mode.Squarify? { KeptMore(rowAreas, next, u); }
    }

    lemma FlatMore(rows: seq<Row>, r: Row)
      ensures FlatAreas(rows + [r]) == FlatAreas(rows) + r.areas && FlatTiles(rows + [r]) == FlatTiles(rows) + r.tiles
    {
      assert (rows + [r])[..|rows|] == rows;
    }

    lemma GoingCuts(areas: seq<real>, rows: seq<Row>, rowAreas: seq<real>, whole: Rect, side: real, rect: Rect,
        u: real, best: Score, next: real, score: Score, r: Row)
      requires Going(areas, rows, rowAreas, whole, side, rect, u, best) && mode.Squarify? && rowAreas != []
      requires var n := |FlatAreas(rows)| + |rowAreas|; n < |areas| && next == areas[n]
      requires IsScore(rowAreas + [next], u, score) && !score.AtMost(best)
      requires IsRow(r) && r.areas == rowAreas && r.rect == rect && r.side == u && !r.flush
      ensures Going(areas, rows + [r], [], whole, side, r.rest, Min(r.rest.dx, r.rest.dy), Infinite)
    {
      hide IsScore, IsRow, Kept;
      FlatMore(rows, r);
      var n := |FlatAreas(rows)|;
      assert (rows + [r])[..|rows|] == rows;
      assert areas[n] == (FlatAreas(rows) + rowAreas)[n] == rowAreas[0];
      assert Worse(rowAreas, next, u);
      NothingKept(Min(r.rest.dx, r.rest.dy));
    }

    lemma NothingKept(u: real)
      ensures Kept([], u)
    {
    }

    lemma GoingEnds(areas: seq<real>, rows: seq<Row>, rowAreas: seq<real>, whole: Rect, side: real, rect: Rect,
        u: real, best: Score, r: Row)
      requires Going(areas, rows, rowAreas, whole, side, rect, u, best) && rowAreas != []
      requires |FlatAreas(rows)| + |rowAreas| == |areas|
      requires IsRow(r) && r.areas == rowAreas && r.rect == rect && r.side == u && r.flush
      ensures InRows(areas, whole, side, rows + [r])
    {
      hide IsScore, IsRow, Kept;
      FlatMore(rows, r);
      var n := |FlatAreas(rows)|;
      assert (rows + [r])[..|rows|] == rows;
      assert FlatAreas(rows) + rowAreas == areas;
      assert areas[n] == (FlatAreas(rows) + rowAreas)[n] == rowAreas[0];
    }

    /** `worst`: the worst ratio of sides in a row of area s along a side u. */
    method Worst(row: seq<Cell>, s: real, u: real) returns (w: Score)
      requires Valid() && AreasOK(row) && s == AreaSum(row) && u >= 0.0
      ensures IsScore(Areas(row), u, w)
    {
      hide IsWorst, IsExtreme, Across, Along;
      TotalOfAreas(row);
      var rmin, rmax := Extremes(row);
      if s == 0.0 || u == 0.0 {
        return Infinite;
      }
      AreaPositive(row);
      w := Finite(Max(Across(rmax, s, u, ratio), Along(rmin.value, s, u, ratio)));
      WorstOfExtremes(row, rmin.value, rmax, s, u, ratio, w.value);
    }

    /** Lays out a row that has been cut, after those already placed. */
    method PlaceNext(children: seq<Cell>, row: seq<Cell>, rowArea: real, u: real, rect: Rect, flush: bool,
                     ghost placed: seq<Cell>, ghost tiles0: seq<Rect>, ghost whole: Rect)
      returns (rest: Rect, ghost tiles: seq<Rect>, ghost r: Row)
      requires Valid() && Distinct(children) && AreasOK(children) && row != [] && rect.Proper() && u >= 0.0
      requires rowArea == AreaSum(row) && FromTheEnd(children, placed + row)
      requires At(placed, tiles0) && Tiles(tiles0 + [rect], whole)
      modifies children`x, children`y, children`dx, children`dy, children`z
      ensures At(placed + row, tiles) && Tiles(tiles + [rest], whole) && rest.Proper()
      ensures IsRow(r) && r == Row(Areas(row), tiles[|tiles0|..], rect, u, rest, flush) && tiles0 <= tiles
      ensures flush ==> rest.dx == 0.0 || rest.dy == 0.0
      ensures Exact() && Roomy(rowArea, u, rect, flush) && Exactly(placed, tiles0) ==>
        Exactly(placed + row, tiles) && rest.Area() == rect.Area() - rowArea
    {
      hide Tiles, AreaSum, Rect.Area, Exact, Roomy, IsRow, Areas;
      ghost var us;
      PartsApart(children, placed, row);
      assert rowArea >= 0.0 by { AreaPositive(row); }
      rest, us := Position(row, rowArea, u, rect, flush);
      tiles := tiles0 + us;
      r := Row(Areas(row), us, rect, u, rest, flush);
      TilesReplaced(tiles0, rect, us + [rest], whole);
      assert tiles0 + (us + [rest]) == tiles + [rest];
    }

    /** Whether the last cell may stay in the row: always, but for squarified layouts. */
    method Accepts(row: seq<Cell>, rowArea: real, u: real, best: Score) returns (accepted: bool, score: Score)
      requires Valid() && AreasOK(row) && rowArea == AreaSum(row) && u >= 0.0
      ensures accepted <==> score.AtMost(best)
      ensures !mode.Squarify? ==> accepted
      ensures mode.Squarify? ==> IsScore(Areas(row), u, score)
    {
      hide IsScore, AreaSum;
      score := best;
      if mode.Squarify? {
        score := Worst(row, rowArea, u);
      }
      accepted := score.AtMost(best);
    }

    ghost predicate ExactHere(children: seq<Cell>, whole: Rect, side: real)
      reads children`area
    {
      Exact() && AreaSum(children) == whole.Area() && (side == whole.dx || side == whole.dy)
    }

    /** What the loop over the children has done: some are placed in rows, the next ones are in a row that is not
        closed. */
    ghost predicate Progress(children: seq<Cell>, placed: seq<Cell>, row: seq<Cell>, rowArea: real, u: real, rect: Rect,
        best: Score, whole: Rect, side: real, tiles: seq<Rect>, rows: seq<Row>)
      reads children`area, row`area, placed`area, placed`x, placed`y, placed`dx, placed`dy
    {
      && |placed + row| <= |children| && FromTheEnd(children, placed + row) && AreasOK(row)
      && At(placed, tiles) && Tiles(tiles + [rect], whole) && tiles == FlatTiles(rows)
      && rect.Proper() && u >= 0.0 && rowArea == AreaSum(row)
      && Going(Areas(Backwards(children)), rows, Areas(row), whole, side, rect, u, best)
      && |FlatAreas(rows)| == |placed|
      && (ExactHere(children, whole, side) ==>
           Exactly(placed, tiles) && RoomLeft(children[..|children| - |placed + row|], rowArea, u, rect))
    }

    lemma ProgressStarts(children: seq<Cell>, whole: Rect, side: real)
      requires whole.Proper() && side >= 0.0
      ensures Progress(children, [], [], 0.0, side, whole, Infinite, whole, side, [], [])
    {
      hide Tiles, FromTheEnd, Going, RoomLeft, Rect.Area, Exact;
      Beginning(children, whole);
      GoingStarts(Areas(Backwards(children)), whole, side);
      if ExactHere(children, whole, side) { RoomFirst(children, side, whole); }
    }

    lemma RowGrown(children: seq<Cell>, placed: seq<Cell>, row: seq<Cell>, rowArea: real, u: real, rect: Rect,
        best: Score, whole: Rect, side: real, tiles: seq<Rect>, rows: seq<Row>, child: Cell)
      requires Progress(children, placed, row, rowArea, u, rect, best, whole, side, tiles, rows) && AreasOK(children)
      requires |placed + row| < |children| && child == children[|children| - 1 - |placed + row|]
      ensures AreasOK(row + [child]) && rowArea + child.area == AreaSum(row + [child]) && u >= 0.0
    {
      hide Tiles, FromTheEnd, Going, RoomLeft, Rect.Area, Exact, At, Exactly, AreasOK, AreaSum, FlatTiles, ExactHere;
      RowGrows(children, placed, row, child);
    }

    lemma RowAccepted(children: seq<Cell>, placed: seq<Cell>, row: seq<Cell>, rowArea: real, u: real, rect: Rect,
        best: Score, whole: Rect, side: real, tiles: seq<Rect>, rows: seq<Row>, score: Score)
      requires row != [] && |placed + row| <= |children| && AreasOK(children) && score.AtMost(best)
      requires row[|row| - 1] == children[|children| - |placed + row|]
      requires Progress(children, placed, row[..|row| - 1], rowArea - row[|row| - 1].area, u, rect, best, whole, side,
        tiles, rows)
      requires mode.Squarify? ==> IsScore(Areas(row), u, score)
      ensures Progress(children, placed, row, rowArea, u, rect, score, whole, side, tiles, rows)
    {
      hide Tiles, FromTheEnd, Going, RoomLeft, Rect.Area, Exact, At, Exactly, AreasOK, AreaSum, FlatTiles, IsScore;
      hide Areas, FlatAreas, Backwards, ExactHere;
      var n := |row| - 1;
      var before, child := row[..n], row[n];
      assert row == before + [child] && |placed + row| == |placed + before| + 1;
      var remaining := children[..|children| - |placed + before|];
      RowGrows(children, placed, before, child);
      AreaNext(children, placed, before, child);
      GoingAccepts(Areas(Backwards(children)), rows, Areas(before), whole, side, rect, u, best, child.area, score);
      if ExactHere(children, whole, side) {
        RoomTaken(children, remaining, rowArea - child.area, u, rect);
        assert remaining[..|remaining| - 1] == children[..|children| - |placed + row|];
      }
    }

    /** Lays out a row that the next child would make worse. */
    method CloseRow(children: seq<Cell>, ghost placed: seq<Cell>, row: seq<Cell>, rowArea: real, u: real, rect: Rect,
                    ghost best: Score, ghost whole: Rect, ghost side: real, ghost tiles: seq<Rect>,
                    ghost rows: seq<Row>, ghost child: Cell, ghost score: Score)
      returns (rest: Rect, ghost tiles': seq<Rect>, ghost rows': seq<Row>)
      requires Valid() && Distinct(children) && AreasOK(children) && row != [] && mode.Squarify?
      requires Progress(children, placed, row, rowArea, u, rect, best, whole, side, tiles, rows)
      requires |placed + row| < |children| && child == children[|children| - 1 - |placed + row|]
      requires IsScore(Areas(row + [child]), u, score) && !score.AtMost(best)
      modifies children`x, children`y, children`dx, children`dy, children`z
      ensures Progress(children, placed + row, [], 0.0, Min(rest.dx, rest.dy), rest, Infinite, whole, side, tiles',
        rows')
    {
      hide Tiles, FromTheEnd, Going, RoomLeft, Rect.Area, Exact, At, Exactly, AreasOK, AreaSum, FlatTiles, IsScore;
      hide Areas, FlatAreas, Backwards, ExactHere, IsRow, Distinct, Roomy, Valid;
      ghost var r, remaining := Row([], [], rect, u, rect, false), children[..|children| - |placed + row|];
      ghost var areas, next, exact := Areas(Backwards(children)), child.area, ExactHere(children, whole, side);
      AreaNext(children, placed, row, child);
      if exact { RoomOfRow(children, remaining, rowArea, u, rect); ExactHereIsExact(children, whole, side); }
      rest, tiles', r := PlaceNext(children, row, rowArea, u, rect, false, placed, tiles, whole);
      rows' := rows + [r];
      FlatMore(rows, r);
      GoingCuts(areas, rows, Areas(row), whole, side, rect, u, best, next, score, r);
      NoRow(placed + row);
      if exact { RoomAgain(remaining, rowArea, u, rect, rest); }
    }

    lemma ExactHereIsExact(children: seq<Cell>, whole: Rect, side: real)
      requires ExactHere(children, whole, side)
      ensures Exact()
    {
    }

    /** Lays out what is left in the last row. */
    method CloseLastRow(children: seq<Cell>, ghost placed: seq<Cell>, row: seq<Cell>, rowArea: real, u: real,
                        rect: Rect, ghost best: Score, ghost whole: Rect, ghost side: real, ghost tiles: seq<Rect>,
                        ghost rows: seq<Row>)
      returns (rest: Rect, ghost tiles': seq<Rect>, ghost rows': seq<Row>)
      requires Valid() && Distinct(children) && AreasOK(children) && row != [] && |placed + row| == |children|
      requires Progress(children, placed, row, rowArea, u, rect, best, whole, side, tiles, rows)
      modifies children`x, children`y, children`dx, children`dy, children`z
      ensures FromTheEnd(children, placed + row) && At(placed + row, tiles') && Tiles(tiles' + [rest], whole)
      ensures rest.dx == 0.0 || rest.dy == 0.0
      ensures InRows(Areas(Backwards(children)), whole, side, rows') && tiles' == FlatTiles(rows')
      ensures ExactHere(children, whole, side) ==> Exactly(placed + row, tiles')
    {
      hide Tiles, FromTheEnd, Going, RoomLeft, Rect.Area, Exact, At, Exactly, AreasOK, AreaSum, FlatTiles, IsScore;
      hide Areas, FlatAreas, Backwards, ExactHere, IsRow, Distinct, Roomy, Valid, InRows;
      ghost var r, remaining := Row([], [], rect, u, rect, false), children[..|children| - |placed + row|];
      ghost var areas, exact := Areas(Backwards(children)), ExactHere(children, whole, side);
      if exact { RoomUsed(remaining, rowArea, u, rect); ExactHereIsExact(children, whole, side); }
      rest, tiles', r := PlaceNext(children, row, rowArea, u, rect, true, placed, tiles, whole);
      rows' := rows + [r];
      FlatMore(rows, r);
      GoingEnds(areas, rows, Areas(row), whole, side, rect, u, best, r);
    }

    /** The loop over the children, from the last to the first: a child joins the row unless that makes the
        worst ratio worse; then the row is laid out without it. A row of one is always accepted. */
    method LayOut(children: seq<Cell>, whole: Rect, side: real)
      returns (ghost tiles: seq<Rect>, ghost rows: seq<Row>)
      requires Valid() && children != [] && Distinct(children) && AreasOK(children) && whole.Proper() && side >= 0.0
      modifies children`x, children`y, children`dx, children`dy, children`z
      ensures At(children, tiles) && Tiles(tiles, whole)
      ensures InRows(Areas(Backwards(children)), whole, side, rows) && FlatTiles(rows) == Backwards(tiles)
      ensures ExactHere(children, whole, side) ==> Exactly(children, tiles)
    {
      hide Tiles, AreaSum, At, Distinct, AreasOK, Exactly, Exact, InRows, IsScore, FlatTiles, Areas, Valid, Progress;
      hide ExactHere;
      var remaining, rect, u := children, whole, side;
      var row: seq<Cell>, rowArea, best := [], 0.0, Infinite;
      ghost var placed: seq<Cell> := [];
      rows, tiles := [], [];
      ProgressStarts(children, whole, side);
      while |remaining| > 0
        invariant |placed + row| <= |children| && remaining == children[..|children| - |placed + row|]
        invariant |placed| < |children| && (row == [] ==> best.Infinite?) && AreasOK(children)
        invariant Progress(children, placed, row, rowArea, u, rect, best, whole, side, tiles, rows)
        decreases |remaining|, |row|
      {
        var n := |remaining|;
        var child := remaining[n - 1];
        RowGrown(children, placed, row, rowArea, u, rect, best, whole, side, tiles, rows, child);
        row, rowArea := row + [child], rowArea + child.area;
        var accepted, score := Accepts(row, rowArea, u, best);
        if accepted {
          RowAccepted(children, placed, row, rowArea, u, rect, best, whole, side, tiles, rows, score);
          remaining, best := remaining[..n - 1], score;
        } else {
          var last := |row| - 1;
          assert row[..last] + [child] == row;
          row, rowArea := row[..last], rowArea - row[last].area;
          rect, tiles, rows := CloseRow(children, placed, row, rowArea, u, rect, best, whole, side, tiles, rows, child,
            score);
          placed := placed + row;
          u := Min(rect.dx, rect.dy);
          row, rowArea, best := [], 0.0, Infinite;
          assert placed + row == placed;
        }
      }
      if |row| > 0 {
        rect, tiles, rows := CloseLastRow(children, placed, row, rowArea, u, rect, best, whole, side, tiles, rows);
        placed := placed + row;
      }
      tiles := Finished(children, placed, tiles, rect, whole);
    }

    /** The side that the first row is laid along. */
    function FirstSide(rect: Rect, depth: nat): (u: real)
      requires rect.Proper()
      ensures u >= 0.0
    {
      match mode
      case Slice => rect.dx
      case Dice => rect.dy
      case SliceDice => if depth % 2 == 1 then rect.dy else rect.dx
      case Squarify => Min(rect.dx, rect.dy)
    }

    lemma ExactOnSide(children: seq<Cell>, rect: Rect, depth: nat)
      requires Exact() && rect.Proper() && AreaSum(children) == rect.Area()
      ensures ExactHere(children, rect, FirstSide(rect, depth))
    {
    }

    /** One level of `squarify`. */
    method LayOutChildren(node: Cell)
      requires Valid() && node.IsTree() && node.Rectangle().Proper()
      modifies node.children`x, node.children`y, node.children`dx, node.children`dy, node.children`z, node.children`area
      ensures LaidOut(this, node)
    {
      hide Tiles, AreaSum, Rect.Area, Exact, Padded, Exactly, Summed, Scaled, ProportionalAreas, Distinct, LaidOut;
      hide InRows, FlatTiles, Areas, Backwards;
      hide Cell.IsTree;
      var c := node.children;
      ghost var tiles: seq<Rect>, rows: seq<Row> := [], [];
      ChildrenDistinct(node);
      if |c| > 0 {
        var rect := Padded(Rect(node.x, node.y, node.dx, node.dy), node.padding);
        Scale(c, rect.dx * rect.dy, node.value);
        SidesMultiplied(rect);
        if Exact() && Summed(node) && node.value > 0.0 {
          ScaledAreas(node, rect);
          ExactOnSide(c, rect, node.depth);
        }
        tiles, rows := LayOut(c, rect, FirstSide(rect, node.depth));
      }
      NodeLaidOut(this, node, tiles, rows);
    }

    /** `squarify`. */
    method Squarify(node: Cell)
      requires Valid() && node.IsTree() && node.Rectangle().Proper()
      modifies node.below
      ensures AllLaidOut(this, node)
      decreases node.height
    {
      hide LaidOut, AllLaidOut, Cell.IsTree;
      ChildrenAreTrees(node);
      LayOutChildren(node);
      ChildrenProper(this, node);
      for i := 0 to |node.children|
        invariant LaidOut(this, node)
        invariant forall k :: 0 <= k < |node.children| ==> node.children[k].Rectangle().Proper()
        invariant forall k :: 0 <= k < i ==> AllLaidOut(this, node.children[k])
      {
        Squarify(node.children[i]);
      }
      AllBelow(this, node);
    }
  }

  // ---------- Without rounding ----------

  /** A row along u has room in the rectangle, and takes all of it if it is the last. */
  ghost predicate Roomy(rowArea: real, u: real, rect: Rect, flush: bool) {
    (u == rect.dx || u == rect.dy) && rowArea <= rect.Area() && (flush ==> rowArea == rect.Area())
  }

  /** The rectangle is just as large as what is still to be laid out, and rows go along one of its sides. */
  ghost predicate RoomLeft(remaining: seq<Cell>, rowArea: real, u: real, rect: Rect)
    reads remaining`area
  {
    (u == rect.dx || u == rect.dy) && AreaSum(remaining) + rowArea == rect.Area()
  }

  lemma RoomFirst(children: seq<Cell>, u: real, rect: Rect)
    requires (u == rect.dx || u == rect.dy) && AreaSum(children) == rect.Area()
    ensures RoomLeft(children, 0.0, u, rect)
  {
  }

  lemma RoomTaken(children: seq<Cell>, remaining: seq<Cell>, rowArea: real, u: real, rect: Rect)
    requires |remaining| <= |children| && remaining == children[..|remaining|] && remaining != []
    requires RoomLeft(remaining, rowArea, u, rect)
    ensures var n := |remaining| - 1; RoomLeft(remaining[..n], rowArea + remaining[n].area, u, rect)
  {
  }

  lemma RoomOfRow(children: seq<Cell>, remaining: seq<Cell>, rowArea: real, u: real, rect: Rect)
    requires AreasOK(children) && |remaining| <= |children| && remaining == children[..|remaining|]
    requires RoomLeft(remaining, rowArea, u, rect)
    ensures Roomy(rowArea, u, rect, false)
  {
    AreaPositive(remaining);
  }

  lemma RoomAgain(remaining: seq<Cell>, rowArea: real, u: real, was: Rect, rect: Rect)
    requires RoomLeft(remaining, rowArea, u, was) && rect.Area() == was.Area() - rowArea
    ensures RoomLeft(remaining, 0.0, Min(rect.dx, rect.dy), rect)
  {
  }

  lemma RoomUsed(remaining: seq<Cell>, rowArea: real, u: real, rect: Rect)
    requires RoomLeft(remaining, rowArea, u, rect) && remaining == []
    ensures Roomy(rowArea, u, rect, true)
  {
  }

  /** How high a row of an area gets along u in a rectangle that is w the other way. */
  lemma Thickness(row: seq<Cell>, rowArea: real, u: real, rect: Rect, w: real, flush: bool, v: real)
    requires rect.Proper() && u >= 0.0 && rowArea == AreaSum(row) >= 0.0 && Roomy(rowArea, u, rect, flush)
    requires w == if u == rect.dx then rect.dy else rect.dx
    requires var t := if u != 0.0 then rowArea / u else 0.0; v == if flush || t > w then w else t
    ensures Filled(row, u, v)
    ensures u == rect.dx ==> Rect(rect.x, rect.y + v, rect.dx, rect.dy - v).Area() == rect.Area() - rowArea
    ensures u != rect.dx ==>
      Filled(row, rect.dy, v) && Rect(rect.x + v, rect.y, rect.dx - v, rect.dy).Area() == rect.Area() - rowArea
  {
    hide AreaSum;
    RowFills(rowArea, u, w, flush, v);
  }

  lemma RowFills(rowArea: real, u: real, w: real, flush: bool, v: real)
    requires rowArea >= 0.0 && u >= 0.0 && w >= 0.0 && rowArea <= u * w && (flush ==> rowArea == u * w)
    requires var t := if u != 0.0 then rowArea / u else 0.0; v == if flush || t > w then w else t
    ensures u * v == rowArea && u * (w - v) == u * w - rowArea
  {
    if u != 0.0 && !flush {
      NoWider(rowArea, u, w);
    }
  }

  /** A row as long as len and v thick is as large as its cells. */
  ghost predicate Filled(row: seq<Cell>, len: real, v: real)
    reads row`area
  {
    len * v == AreaSum(row)
  }

  predicate HasSides(t: Rect, a: real, b: real) {
    (t.dx == a && t.dy == b) || (t.dx == b && t.dy == a)
  }

  /** The first cells of a row that is v thick have their areas, and reach as far as these ask. */
  ghost predicate Measured(row: seq<Cell>, tiles: seq<Rect>, done: real, v: real)
    reads row`area
  {
    && |tiles| <= |row| && done * v == AreaSum(row[..|tiles|])
    && forall k :: 0 <= k < |tiles| ==> tiles[k].Area() == row[k].area
  }

  lemma NoneMeasured(row: seq<Cell>, v: real)
    ensures Measured(row, [], 0.0, v)
  {
  }

  lemma {:induction false} AreaUpTo(row: seq<Cell>, i: nat)
    requires AreasOK(row) && i < |row|
    ensures 0.0 <= AreaSum(row[..i]) && AreaSum(row[..i + 1]) == AreaSum(row[..i]) + row[i].area <= AreaSum(row)
    decreases |row| - i
  {
    AreaPositive(row[..i]);
    assert row[..i + 1][..i] == row[..i];
    if i + 1 < |row| {
      AreaUpTo(row, i + 1);
    } else {
      assert row[..i + 1] == row;
    }
  }

  function Quotient(a: real, b: real): real {
    if b != 0.0 then a / b else 0.0
  }

  lemma RowMeasured(row: seq<Cell>, tiles: seq<Rect>, r: Rect, x: real, t: Rect, exact: bool)
    requires RowSoFar(tiles, r, x) && |tiles| < |row| && AreasOK(row) && r.dy >= 0.0
    requires t.x == x && t.y == r.y && t.dy == r.dy && 0.0 <= t.dx <= r.x + r.dx - x
    requires exact ==> t.dx == Min(r.x + r.dx - x, Quotient(row[|tiles|].area, r.dy))
    requires exact ==> Filled(row, r.dx, r.dy) && Measured(row, tiles, x - r.x, r.dy)
    ensures RowSoFar(tiles + [t], r, x + t.dx)
    ensures exact ==> Measured(row, tiles + [t], x + t.dx - r.x, r.dy)
  {
    hide RowSoFar, Measured, Filled, Quotient;
    RowGoesOn(tiles, r, x, t.dx);
    assert t == Rect(t.x, t.y, t.dx, t.dy);
    if exact { MeasuredNext(row, tiles, x - r.x, r.dx, r.dy, t.dx, t); }
  }

  lemma RowDone(row: seq<Cell>, tiles: seq<Rect>, r: Rect, x: real, t: Rect, exact: bool)
    requires RowSoFar(tiles, r, x) && |tiles| == |row| > 0
    requires var last := tiles[|tiles| - 1]; t == last.(dx := last.dx + (r.x + r.dx - x))
    requires exact ==> Filled(row, r.dx, r.dy) && Measured(row, tiles, x - r.x, r.dy)
    ensures InRow(tiles[|tiles| - 1 := t], r)
    ensures exact ==> Exactly(row, tiles[|tiles| - 1 := t])
  {
    hide RowSoFar, InRow, Measured, Filled, Exactly;
    RowEnds(tiles, r, x);
    if exact { MeasuredEnds(row, tiles, x - r.x, r.dx, r.dy, tiles[|tiles| - 1].dx, t); }
  }

  lemma ColumnMeasured(row: seq<Cell>, tiles: seq<Rect>, r: Rect, y: real, t: Rect, exact: bool)
    requires ColumnSoFar(tiles, r, y) && |tiles| < |row| && AreasOK(row) && r.dx >= 0.0
    requires t.x == r.x && t.y == y && t.dx == r.dx && 0.0 <= t.dy <= r.y + r.dy - y
    requires exact ==> t.dy == Min(r.y + r.dy - y, Quotient(row[|tiles|].area, r.dx))
    requires exact ==> Filled(row, r.dy, r.dx) && Measured(row, tiles, y - r.y, r.dx)
    ensures ColumnSoFar(tiles + [t], r, y + t.dy)
    ensures exact ==> Measured(row, tiles + [t], y + t.dy - r.y, r.dx)
  {
    hide ColumnSoFar, Measured, Filled, Quotient;
    ColumnGoesOn(tiles, r, y, t.dy);
    assert t == Rect(t.x, t.y, t.dx, t.dy);
    if exact { MeasuredNext(row, tiles, y - r.y, r.dy, r.dx, t.dy, t); }
  }

  lemma ColumnDone(row: seq<Cell>, tiles: seq<Rect>, r: Rect, y: real, t: Rect, exact: bool)
    requires ColumnSoFar(tiles, r, y) && |tiles| == |row| > 0
    requires var last := tiles[|tiles| - 1]; t == last.(dy := last.dy + (r.y + r.dy - y))
    requires exact ==> Filled(row, r.dy, r.dx) && Measured(row, tiles, y - r.y, r.dx)
    ensures InColumn(tiles[|tiles| - 1 := t], r)
    ensures exact ==> Exactly(row, tiles[|tiles| - 1 := t])
  {
    hide ColumnSoFar, InColumn, Measured, Filled, Exactly;
    ColumnEnds(tiles, r, y);
    if exact { MeasuredEnds(row, tiles, y - r.y, r.dy, r.dx, tiles[|tiles| - 1].dy, t); }
  }

  lemma MeasuredNext(row: seq<Cell>, tiles: seq<Rect>, done: real, len: real, v: real, w: real, t: Rect)
    requires Measured(row, tiles, done, v) && |tiles| < |row| && AreasOK(row) && Filled(row, len, v)
    requires v >= 0.0 && w == Min(len - done, Quotient(row[|tiles|].area, v)) && HasSides(t, w, v)
    ensures Measured(row, tiles + [t], done + w, v)
  {
    hide AreaSum;
    var i := |tiles|;
    AreaUpTo(row, i);
    assert (done + w) * v == done * v + w * v;
    if v == 0.0 {
      assert AreaSum(row) == 0.0 && w * v == 0.0;
    } else {
      NoWider(row[i].area, v, len - done);
      assert (len - done) * v == len * v - done * v;
    }
  }

  lemma NoWider(area: real, v: real, len: real)
    requires v > 0.0
    ensures area <= len * v ==> area / v <= len
    ensures area / v * v == area
  {
    if area / v > len { assert area / v * v > len * v; }
  }

  /** The last cell gets what is left, which is nothing. */
  lemma MeasuredEnds(row: seq<Cell>, tiles: seq<Rect>, done: real, len: real, v: real, w: real, t: Rect)
    requires Measured(row, tiles, done, v) && |tiles| == |row| > 0 && Filled(row, len, v)
    requires HasSides(tiles[|tiles| - 1], w, v) && HasSides(t, w + (len - done), v)
    ensures Exactly(row, tiles[|tiles| - 1 := t])
  {
    assert row[..|row|] == row;
    assert (w + (len - done)) * v == w * v + (len * v - done * v);
  }

  /** w is the greatest badness of a cell in the row. */
  ghost predicate IsWorst(areas: seq<real>, s: real, u: real, ratio: real, w: real)
    requires s > 0.0 && u > 0.0 && ratio > 0.0
  {
    && (forall i :: 0 <= i < |areas| && areas[i] > 0.0 ==> Badness(areas[i], s, u, ratio) <= w)
    && (exists i :: 0 <= i < |areas| && areas[i] > 0.0 && Badness(areas[i], s, u, ratio) == w)
  }

  ghost predicate IsExtreme(row: seq<Cell>, rmin: real, rmax: real)
    reads row`area
  {
    && (forall i :: 0 <= i < |row| && row[i].area != 0.0 ==> rmin <= row[i].area <= rmax)
    && (exists i :: 0 <= i < |row| && row[i].area == rmin) && (exists i :: 0 <= i < |row| && row[i].area == rmax)
  }

  lemma NextExtreme(row: seq<Cell>, c: Cell, rmin: Score, rmax: real)
    requires rmin.Finite? ==> 0.0 < rmin.value && IsExtreme(row, rmin.value, rmax)
    requires rmin.Infinite? ==> rmax == 0.0 && c.area > 0.0 && forall k :: 0 <= k < |row| ==> row[k].area == 0.0
    requires c.area >= 0.0
    ensures var r := c.area;
      IsExtreme(row + [c], if r != 0.0 && (rmin.Infinite? || r < rmin.value) then r else rmin.value, if r > rmax then r
        else rmax)
  {
    var all := row + [c];
    assert all[|row|] == c && forall i :: 0 <= i < |row| ==> all[i] == row[i];
  }

  lemma {:induction false} AreaPositive(row: seq<Cell>)
    requires AreasOK(row)
    ensures AreaSum(row) >= 0.0
  {
    if row != [] {
      AreaPositive(row[..|row| - 1]);
    }
  }

  lemma ProductsOrdered(k: real, a: real, b: real, ratio: real)
    requires k > 0.0 && 0.0 < a <= b && ratio > 0.0
    ensures 0.0 < k * a * ratio <= k * b * ratio
  {
    Product(k, a, ratio);
    assert k * a <= k * b;
  }

  lemma Quotients(a: real, b: real, d: real)
    requires d > 0.0 && a <= b
    ensures a / d <= b / d
  {
  }

  lemma Inverses(d: real, a: real, b: real)
    requires d > 0.0 && 0.0 < a <= b
    ensures d / b <= d / a
  {
    assert d / b * (a * b) == d * a && d / a * (a * b) == d * b;
  }

  lemma AcrossGrows(a: real, b: real, s: real, u: real, ratio: real)
    requires 0.0 < a <= b && s > 0.0 && u > 0.0 && ratio > 0.0
    ensures Across(a, s, u, ratio) <= Across(b, s, u, ratio)
  {
    hide Squared;
    ProductsOrdered(Squared(u), a, b, ratio);
    Quotients(Squared(u) * a * ratio, Squared(u) * b * ratio, Squared(s));
  }

  lemma AlongFalls(a: real, b: real, s: real, u: real, ratio: real)
    requires 0.0 < a <= b && s > 0.0 && u > 0.0 && ratio > 0.0
    ensures Along(b, s, u, ratio) <= Along(a, s, u, ratio)
  {
    hide Squared;
    ProductsOrdered(Squared(u), a, b, ratio);
    Inverses(Squared(s), Squared(u) * a * ratio, Squared(u) * b * ratio);
  }

  lemma FactorPositive(a: real, b: real)
    requires b > 0.0 && a * b > 0.0
    ensures a > 0.0
  {
  }

  /** What badness means: a row of area s along u is v thick, and a cell of area r in it is l long. */
  lemma BadnessIsShape(r: real, s: real, u: real, ratio: real, v: real, l: real)
    requires r > 0.0 && s > 0.0 && u > 0.0 && ratio > 0.0 && v * u == s && l * v == r
    ensures v > 0.0 && l > 0.0 && ratio * l > 0.0
    ensures Badness(r, s, u, ratio) == Max(ratio * l / v, v / (ratio * l))
  {
    FactorPositive(v, u);
    FactorPositive(l, v);
    Product(1.0, ratio, l);
    ShapeAcross(r, s, u, ratio, v, l);
    ShapeAlong(r, s, u, ratio, v, l);
  }

  lemma ShapeAcross(r: real, s: real, u: real, ratio: real, v: real, l: real)
    requires r > 0.0 && s > 0.0 && u > 0.0 && ratio > 0.0 && v * u == s && l * v == r && v > 0.0
    ensures Across(r, s, u, ratio) == ratio * l / v
  {
    var q := ratio * l / v;
    assert q * v == ratio * l;
    assert q * (s * s) == q * v * u * (v * u) == ratio * l * u * (v * u) == u * u * (l * v) * ratio;
  }

  lemma ShapeAlong(r: real, s: real, u: real, ratio: real, v: real, l: real)
    requires r > 0.0 && s > 0.0 && u > 0.0 && ratio > 0.0 && v * u == s && l * v == r && v > 0.0 && ratio * l > 0.0
    ensures Along(r, s, u, ratio) == v / (ratio * l)
  {
    var q := v / (ratio * l);
    Product(Squared(u), r, ratio);
    assert q * (ratio * l) == v;
    assert q * (u * u * r * ratio) == q * (ratio * l) * v * (u * u) == v * v * (u * u) == s * s;
  }

  lemma WorstOfExtremes(row: seq<Cell>, rmin: real, rmax: real, s: real, u: real, ratio: real, w: real)
    requires AreasOK(row) && 0.0 < rmin && IsExtreme(row, rmin, rmax) && s > 0.0 && u > 0.0 && ratio > 0.0
    requires w == Max(Across(rmax, s, u, ratio), Along(rmin, s, u, ratio))
    ensures IsWorst(Areas(row), s, u, ratio, w)
  {
    hide Across, Along;
    var areas := Areas(row);
    forall i | 0 <= i < |areas| && areas[i] > 0.0 ensures Badness(areas[i], s, u, ratio) <= w {
      AcrossGrows(row[i].area, rmax, s, u, ratio);
      AlongFalls(rmin, row[i].area, s, u, ratio);
    }
    var i :| 0 <= i < |row| && row[i].area == rmin;
    var j :| 0 <= j < |row| && row[j].area == rmax;
    AcrossGrows(rmin, rmax, s, u, ratio);
    AlongFalls(rmin, rmax, s, u, ratio);
    assert Badness(areas[i], s, u, ratio) == w || Badness(areas[j], s, u, ratio) == w;
  }

  lemma RowStarts(r: Rect)
    requires r.Proper()
    ensures RowSoFar([], r, r.x)
  {
  }

  lemma ColumnStarts(r: Rect)
    requires r.Proper()
    ensures ColumnSoFar([], r, r.y)
  {
  }

  /** The cells are the last of the children, the last one first. */
  ghost predicate FromTheEnd(children: seq<Cell>, cells: seq<Cell>) {
    |cells| <= |children| && forall i :: 0 <= i < |cells| ==> cells[i] == children[|children| - 1 - i]
  }

  lemma PartsApart(children: seq<Cell>, placed: seq<Cell>, row: seq<Cell>)
    requires Distinct(children) && FromTheEnd(children, placed + row)
    ensures Distinct(row) && (forall i :: 0 <= i < |row| ==> row[i] in children) && forall i :: 0 <= i < |placed| ==>
      placed[i] !in row
    ensures AreasOK(children) ==> AreasOK(row)
  {
    var cells := placed + row;
    assert forall i :: 0 <= i < |placed| ==> cells[i] == placed[i];
    assert forall i :: 0 <= i < |row| ==> cells[|placed| + i] == row[i];
  }

  lemma NoRow(placed: seq<Cell>)
    ensures placed + [] == placed && Areas([]) == [] && AreaSum([]) == 0.0 && AreasOK([])
  {
  }

  lemma Beginning(children: seq<Cell>, whole: Rect)
    requires whole.Proper()
    ensures FromTheEnd(children, [] + []) && At([], []) && Tiles([] + [whole], whole) && AreaSum([]) == 0.0
      && AreasOK([]) && Exactly([], []) && Areas([]) == [] && FlatAreas([]) == [] && FlatTiles([]) == []
    ensures children == children[..|children|]
  {
    Itself(whole);
    assert [] + [whole] == [whole];
  }

  /** The area of the next child, counted from the end. */
  lemma AreaNext(children: seq<Cell>, placed: seq<Cell>, row: seq<Cell>, child: Cell)
    requires FromTheEnd(children, placed + row) && |placed + row| < |children|
    requires child == children[|children| - 1 - |placed + row|]
    ensures Areas(Backwards(children))[|placed| + |row|] == child.area
    ensures Areas(row + [child]) == Areas(row) + [child.area]
  {
    assert (row + [child])[..|row|] == row;
  }

  lemma RowGrows(children: seq<Cell>, placed: seq<Cell>, row: seq<Cell>, child: Cell)
    requires FromTheEnd(children, placed + row) && |placed + row| < |children| && AreasOK(children) && AreasOK(row)
    requires child == children[|children| - 1 - |placed + row|]
    ensures FromTheEnd(children, placed + (row + [child])) && AreasOK(row + [child])
    ensures AreaSum(row + [child]) == AreaSum(row) + child.area
  {
    assert placed + (row + [child]) == placed + row + [child];
    assert (row + [child])[..|row|] == row;
  }

  /** All children are placed, and the rest of the rectangle is empty. */
  lemma Finished(children: seq<Cell>, placed: seq<Cell>, ts: seq<Rect>, rest: Rect, whole: Rect)
    returns (tiles: seq<Rect>)
    requires FromTheEnd(children, placed) && |placed| == |children| && At(placed, ts)
    requires Tiles(ts + [rest], whole) && (rest.dx == 0.0 || rest.dy == 0.0)
    ensures At(children, tiles) && Tiles(tiles, whole) && ts == Backwards(tiles)
    ensures Exactly(placed, ts) ==> Exactly(children, tiles)
  {
    EmptyRest(ts, rest, whole);
    tiles := seq(|ts|, i requires 0 <= i < |ts| => ts[|ts| - 1 - i]);
    TilesReversed(ts, tiles, whole);
    forall i | 0 <= i < |children| ensures children[i].Rectangle() == tiles[i] {
      assert placed[|children| - 1 - i] == children[i];
    }
  }

  ghost function Rectangles(cells: seq<Cell>): (rs: seq<Rect>)
    reads cells`x, cells`y, cells`dx, cells`dy
    ensures At(cells, rs)
  {
    if cells == [] then [] else Rectangles(cells[..|cells| - 1]) + [cells[|cells| - 1].Rectangle()]
  }

  lemma AtRectangles(cells: seq<Cell>, tiles: seq<Rect>)
    requires At(cells, tiles)
    ensures tiles == Rectangles(cells)
  {
    assert At(cells, Rectangles(cells));
    forall i | 0 <= i < |cells| ensures tiles[i] == Rectangles(cells)[i] {
    }
  }

  function ValueSum(cells: seq<Cell>): real {
    if cells == [] then 0.0 else ValueSum(cells[..|cells| - 1]) + cells[|cells| - 1].value
  }

  /** The cell's value is the sum of those of its children, none of which is negative. */
  ghost predicate Summed(node: Cell) {
    node.value == ValueSum(node.children) && forall i :: 0 <= i < |node.children| ==> node.children[i].value >= 0.0
  }

  /** The area a is in the same proportion to another as the value v is to the other's. */
  predicate InRatio(a: real, v: real, a1: real, v1: real) {
    a * v1 == v * a1
  }

  /** The areas of the children are in the same proportion to the padded rectangle as their values to the cell's. */
  ghost predicate InProportion(node: Cell)
    reads node`x, node`y, node`dx, node`dy, node.children`x, node.children`y, node.children`dx, node.children`dy
  {
    node.Rectangle().Proper() && forall i :: 0 <= i < |node.children| ==>
      InRatio(node.children[i].Rectangle().Area(), node.children[i].value,
        Padded(node.Rectangle(), node.padding).Area(), node.value)
  }

  lemma {:induction false} ValueNonNegative(cells: seq<Cell>, i: nat)
    requires i <= |cells| && forall k :: 0 <= k < |cells| ==> cells[k].value >= 0.0
    ensures 0.0 <= ValueSum(cells) && (i < |cells| ==> cells[i].value <= ValueSum(cells))
    decreases |cells|
  {
    if cells != [] {
      var n := |cells| - 1;
      ValueNonNegative(cells[..n], if i < n then i else n);
    }
  }

  lemma {:induction false} AreasScaled(cells: seq<Cell>, size: real, total: real)
    requires forall i :: 0 <= i < |cells| ==> cells[i].area * total == cells[i].value * size
    ensures AreaSum(cells) * total == ValueSum(cells) * size
  {
    if cells != [] {
      AreasScaled(cells[..|cells| - 1], size, total);
    }
  }

  /** The areas are in proportion to the values; those below zero, or of the other sign than the total, have none. */
  ghost predicate Scaled(cells: seq<Cell>, size: real, total: real)
    reads cells`area
  {
    forall i :: 0 <= i < |cells| ==>
      cells[i].area == if total == 0.0 then 0.0 else Max(cells[i].value * Max(size / total, 0.0), 0.0)
  }

  /** What the areas of the children of a cell with a value add up to. */
  lemma ScaledAreas(node: Cell, rect: Rect)
    requires Summed(node) && node.value > 0.0 && rect.Proper() && Scaled(node.children, rect.dx * rect.dy, node.value)
    ensures AreaSum(node.children) == rect.Area()
    ensures ProportionalAreas(node, rect)
  {
    hide AreaSum, ValueSum, Rect.Area;
    AreaNonNegative(rect);
    var size := rect.Area();
    SidesMultiplied(rect);
    forall i | 0 <= i < |node.children| ensures node.children[i].area * node.value == node.children[i].value * size {
      ScaledArea(node.children[i].area, node.children[i].value, size, node.value);
    }
    AreasScaled(node.children, size, node.value);
    SameFactor(AreaSum(node.children), size, node.value);
  }

  lemma SidesMultiplied(rect: Rect)
    ensures rect.dx * rect.dy == rect.Area()
  {
  }

  lemma SameFactor(a: real, b: real, k: real)
    requires k > 0.0 && a * k == k * b
    ensures a == b
  {
  }

  ghost predicate ProportionalAreas(node: Cell, rect: Rect)
    reads node.children`area
  {
    forall i :: 0 <= i < |node.children| ==>
      node.children[i].area * node.value == node.children[i].value * rect.Area()
  }

  lemma ScaledArea(area: real, value: real, size: real, total: real)
    requires value >= 0.0 && size >= 0.0 && total > 0.0 && area == Max(value * Max(size / total, 0.0), 0.0)
    ensures area * total == value * size
  {
    var k := size / total;
    assert k * total == size && k >= 0.0;
    assert value * k >= 0.0;
    assert value * k * total == value * (k * total);
  }

  lemma NoProportion(node: Cell)
    requires node.Rectangle().Proper() && node.children == []
    ensures InProportion(node)
  {
  }

  lemma NodeLaidOut(layout: Layout, node: Cell, tiles: seq<Rect>, rows: seq<Row>)
    requires node.Rectangle().Proper()
    requires node.children != [] ==>
      At(node.children, tiles) && Tiles(tiles, Padded(node.Rectangle(), node.padding))
    requires var rect := Padded(node.Rectangle(), node.padding);
      node.children != [] ==> Scaled(node.children, rect.Area(), node.value)
    requires node.children != [] ==> FlatTiles(rows) == Backwards(tiles)
    requires var rect := Padded(node.Rectangle(), node.padding); node.children != [] ==>
      layout.InRows(Areas(Backwards(node.children)), rect, layout.FirstSide(rect, node.depth), rows)
    requires node.children != [] && layout.Exact() && Summed(node) && node.value > 0.0 ==>
      Exactly(node.children, tiles) && ProportionalAreas(node, Padded(node.Rectangle(), node.padding))
    ensures LaidOut(layout, node)
  {
    hide Tiles, InProportion, Summed, Padded, Exactly, ProportionalAreas, Rectangles, At, Scaled, FlatTiles, Areas;
    hide Layout.InRows, Layout.FirstSide, Layout.Exact, Backwards, Rect.Area;
    if node.children == [] {
      NoProportion(node);
    } else {
      AtRectangles(node.children, tiles);
      assert Arranged(layout, node, rows);
      if layout.Exact() && Summed(node) {
        if node.value > 0.0 { ProportionOfAreas(node, tiles); } else { ProportionOfNothing(node); }
      }
    }
  }

  lemma ProportionOfNothing(node: Cell)
    requires node.Rectangle().Proper() && Summed(node) && node.value <= 0.0
    ensures InProportion(node)
  {
    hide Padded, Rect.Area;
    forall i | 0 <= i < |node.children| ensures node.children[i].value == 0.0 && node.value == 0.0 {
      ValueNonNegative(node.children, i);
    }
  }

  lemma ProportionOfAreas(node: Cell, tiles: seq<Rect>)
    requires node.Rectangle().Proper() && At(node.children, tiles) && Exactly(node.children, tiles)
    requires ProportionalAreas(node, Padded(node.Rectangle(), node.padding))
    ensures InProportion(node)
  {
    hide Padded, Rect.Area;
  }

  /** The children of the cell tile its padded rectangle, and without rounding their areas are as the values say. */
  ghost predicate LaidOut(layout: Layout, node: Cell)
    reads node`x, node`y, node`dx, node`dy, node.children`x, node.children`y, node.children`dx, node.children`dy
    reads node.children`area
  {
    && node.Rectangle().Proper()
    && (node.children != [] ==>
      && Tiles(Rectangles(node.children), Padded(node.Rectangle(), node.padding))
      && exists rows :: Arranged(layout, node, rows))
    && (layout.Exact() && Summed(node) ==> InProportion(node))
  }

  /** The children's areas are as their values say, and they are where the layout puts these areas in rows. */
  ghost predicate Arranged(layout: Layout, node: Cell, rows: seq<Row>)
    reads node`x, node`y, node`dx, node`dy, node.children`x, node.children`y, node.children`dx, node.children`dy
    reads node.children`area
    requires node.Rectangle().Proper()
  {
    var rect := Padded(node.Rectangle(), node.padding);
    && Scaled(node.children, rect.Area(), node.value)
    && layout.InRows(Areas(Backwards(node.children)), rect, layout.FirstSide(rect, node.depth), rows)
    && FlatTiles(rows) == Backwards(Rectangles(node.children))
  }

  /** The children of a cell below are below too. */
  lemma {:induction false} Closed(c: Cell, d: Cell)
    requires c.IsTree() && d in c.below
    ensures d.IsTree() && forall e :: e in d.children ==> e in c.below
    decreases c.height
  {
    var i :| 0 <= i < |c.children| && (d == c.children[i] || d in c.children[i].below);
    if d in c.children[i].below {
      Closed(c.children[i], d);
    }
  }

  /** A cell and all cells below it are laid out. */
  ghost predicate AllLaidOut(layout: Layout, c: Cell)
    requires c.IsTree()
    reads c`x, c`y, c`dx, c`dy, c.below`x, c.below`y, c.below`dx, c.below`dy, c.below`area
  {
    assert forall e :: e in c.children ==> e in c.below;
    LaidOut(layout, c) && forall d :: d in c.below ==> (Closed(c, d); LaidOut(layout, d))
  }

  /** What the layout of the parts of a tree relies on. */
  lemma ChildrenAreTrees(node: Cell)
    requires node.IsTree()
    ensures forall i :: 0 <= i < |node.children| ==>
      node.children[i].IsTree() && node.children[i].height < node.height && node.children[i] in node.below
    ensures forall i, d :: 0 <= i < |node.children| && d in node.children[i].below ==> d in node.below
    ensures forall i, j :: 0 <= i < |node.children| && 0 <= j < |node.children| ==>
      node !in node.children[i].below && node.children[j] !in node.children[i].below
    ensures forall i, j :: 0 <= i < j < |node.children| ==>
      node.children[i].below !! node.children[j].below && node.children[i] != node.children[j]
  {
    forall i | 0 <= i < |node.children| ensures node.children[i] !in node.children[i].below {
      NotBelowItself(node.children[i]);
    }
  }

  lemma {:induction false} Lower(c: Cell, d: Cell)
    requires c.IsTree() && d in c.below
    ensures d.height < c.height
    decreases c.height
  {
    var i :| 0 <= i < |c.children| && (d == c.children[i] || d in c.children[i].below);
    if d in c.children[i].below {
      Lower(c.children[i], d);
    }
  }

  lemma NotBelowItself(c: Cell)
    requires c.IsTree()
    ensures c !in c.below
  {
    if c in c.below { Lower(c, c); }
  }

  lemma AllBelow(layout: Layout, node: Cell)
    requires node.IsTree() && LaidOut(layout, node) && forall i :: 0 <= i < |node.children| ==>
      node.children[i].IsTree() && AllLaidOut(layout, node.children[i])
    ensures AllLaidOut(layout, node)
  {
    hide LaidOut;
  }

  lemma ChildrenDistinct(node: Cell)
    requires node.IsTree()
    ensures Distinct(node.children) && node !in node.children
    ensures forall i :: 0 <= i < |node.children| && node.value == 0.0 ==> node.children[i].value <= 0.0
  {
  }

  lemma ChildrenProper(layout: Layout, node: Cell)
    requires LaidOut(layout, node)
    ensures forall i :: 0 <= i < |node.children| ==> node.children[i].Rectangle().Proper()
  {
    var rs := Rectangles(node.children);
    assert forall i :: 0 <= i < |node.children| ==> node.children[i].Rectangle() == rs[i];
  }

  // ---------- Values and areas ----------

  /** The values are sums of values that are not negative. */
  ghost predicate AllSummed(c: Cell)
    requires c.IsTree()
    decreases c.height
  {
    && c.value >= 0.0 && (c.children != [] ==> Summed(c))
    && forall i :: 0 <= i < |c.children| ==> AllSummed(c.children[i])
  }

  ghost predicate Unpadded(c: Cell)
    requires c.IsTree()
    decreases c.height
  {
    c.padding.None? && forall i :: 0 <= i < |c.children| ==> Unpadded(c.children[i])
  }

  ghost predicate AllInProportion(c: Cell)
    requires c.IsTree()
    reads c`x, c`y, c`dx, c`dy, c.below`x, c.below`y, c.below`dx, c.below`dy
  {
    assert forall e :: e in c.children ==> e in c.below;
    InProportion(c) && forall d :: d in c.below ==> (Closed(c, d); InProportion(d))
  }

  lemma {:induction false} SummedBelow(c: Cell, d: Cell)
    requires c.IsTree() && AllSummed(c) && d in c.below
    ensures d.children != [] ==> Summed(d)
    decreases c.height
  {
    hide Summed;
    var i :| 0 <= i < |c.children| && (d == c.children[i] || d in c.children[i].below);
    if d in c.children[i].below {
      SummedBelow(c.children[i], d);
    }
  }

  /** Without rounding, the rectangle of every cell is shared out among its children as their values say. */
  lemma SharedByValue(layout: Layout, c: Cell)
    requires c.IsTree() && AllLaidOut(layout, c) && layout.Exact() && AllSummed(c)
    ensures AllInProportion(c)
  {
    hide InProportion, Summed;
    if c.children == [] { NoProportion(c); }
    forall d | d in c.below ensures InProportion(d) {
      SummedBelow(c, d);
      assert LaidOut(layout, d);
      if d.children == [] { NoProportion(d); }
    }
  }

  lemma AreaNonNegative(r: Rect)
    requires r.Proper()
    ensures r.Area() >= 0.0
  {
  }

  lemma {:induction false} PartOfArea(ts: seq<Rect>, i: nat)
    requires i < |ts| && forall k :: 0 <= k < |ts| ==> ts[k].Proper()
    ensures 0.0 <= ts[i].Area() <= AreaOf(ts)
    decreases |ts|
  {
    var n := |ts| - 1;
    AreaNonNegative(ts[n]);
    if i < n {
      PartOfArea(ts[..n], i);
    } else if n > 0 {
      PartOfArea(ts[..n], n - 1);
    }
  }

  lemma ChildArea(layout: Layout, c: Cell, i: nat)
    requires LaidOut(layout, c) && layout.Exact() && Summed(c) && c.padding.None? && i < |c.children|
    ensures var child := c.children[i];
      && InRatio(child.Rectangle().Area(), child.value, c.Rectangle().Area(), c.value)
      && 0.0 <= child.Rectangle().Area() <= c.Rectangle().Area() && 0.0 <= child.value <= c.value
  {
    hide Rect.Area, AreaOf, ValueSum;
    var rs := Rectangles(c.children);
    assert rs[i] == c.children[i].Rectangle();
    PartOfArea(rs, i);
    ValueNonNegative(c.children, i);
  }

  /** Proportions go together. */
  lemma Proportions(a: real, v: real, a1: real, v1: real, a2: real, v2: real)
    requires InRatio(a, v, a1, v1) && InRatio(a1, v1, a2, v2) && 0.0 <= a <= a1 && 0.0 <= v <= v1
    ensures InRatio(a, v, a2, v2)
  {
    if v1 == 0.0 {
      if v2 != 0.0 { assert a1 == 0.0; }
    } else {
      assert a * v2 * v1 == v * a2 * v1 by {
        assert a * v2 * v1 == a * v1 * v2 == v * a1 * v2 == v * (a1 * v2) == v * (v1 * a2);
      }
    }
  }

  lemma PartsLaidOut(layout: Layout, c: Cell, i: nat)
    requires c.IsTree() && AllLaidOut(layout, c) && layout.Exact() && i < |c.children|
    ensures LaidOut(layout, c) && c.children[i].IsTree() && AllLaidOut(layout, c.children[i])
  {
    hide LaidOut;
  }

  /** Without rounding and padding, areas are in proportion to values in the whole tree. */
  lemma {:induction false} AreasAsValues(layout: Layout, c: Cell, d: Cell)
    requires c.IsTree() && AllLaidOut(layout, c) && layout.Exact() && AllSummed(c) && Unpadded(c) && d in c.below
    ensures InRatio(d.Rectangle().Area(), d.value, c.Rectangle().Area(), c.value)
    ensures 0.0 <= d.Rectangle().Area() <= c.Rectangle().Area() && 0.0 <= d.value <= c.value
    decreases c.height
  {
    hide LaidOut, Summed, Rect.Area, InRatio, AllLaidOut;
    var i :| 0 <= i < |c.children| && (d == c.children[i] || d in c.children[i].below);
    var child := c.children[i];
    PartsLaidOut(layout, c, i);
    ChildArea(layout, c, i);
    if d in child.below {
      AreasAsValues(layout, child, d);
      Proportions(d.Rectangle().Area(), d.value, child.Rectangle().Area(), child.value, c.Rectangle().Area(), c.value);
    }
  }

  // ---------- Which rows there are ----------

  /** What holds of every row: none is empty, each but the last is closed because the first cell of the next would have
      made its worst ratio worse, and each is taken off what the one before leaves. */
  ghost predicate RowAt(layout: Layout, rows: seq<Row>, whole: Rect, side: real, k: nat)
    requires k < |rows|
  {
    && layout.IsRow(rows[k]) && (rows[k].flush <==> k == |rows| - 1)
    && rows[k].rect == (if k == 0 then whole else rows[k - 1].rest)
    && rows[k].side == (if k == 0 then side else Min(rows[k].rect.dx, rows[k].rect.dy))
    && (layout.mode.Squarify? ==> layout.Kept(rows[k].areas, rows[k].side))
    && (k < |rows| - 1 ==>
         layout.mode.Squarify? && rows[k + 1].areas != []
           && layout.Worse(rows[k].areas, rows[k + 1].areas[0], rows[k].side))
  }

  lemma {:induction false} SoFarAt(layout: Layout, rows: seq<Row>, whole: Rect, side: real, rect: Rect, u: real, k: nat)
    requires layout.RowsSoFar(rows, whole, side, rect, u) && k <= |rows|
    ensures k < |rows| ==> layout.IsRow(rows[k]) && !rows[k].flush
    ensures var r := if k < |rows| then rows[k].rect else rect;
      r == (if k == 0 then whole else rows[k - 1].rest)
      && (if k < |rows| then rows[k].side else u) == (if k == 0 then side else Min(r.dx, r.dy))
    decreases |rows|
  {
    hide Layout.IsRow;
    if k < |rows| {
      var n := |rows| - 1;
      SoFarAt(layout, rows[..n], whole, side, rows[n].rect, rows[n].side, k);
    }
  }

  lemma {:induction false} GreedyAt(layout: Layout, rows: seq<Row>, next: real, k: nat)
    requires layout.Greedy(rows, next) && k < |rows|
    ensures rows[k].areas != [] && layout.Kept(rows[k].areas, rows[k].side)
    ensures k < |rows| - 1 ==> rows[k + 1].areas != []
    ensures layout.Worse(rows[k].areas, if k < |rows| - 1 then rows[k + 1].areas[0] else next, rows[k].side)
    decreases |rows|
  {
    hide Layout.Kept, Layout.Worse;
    var n := |rows| - 1;
    if k < n {
      GreedyAt(layout, rows[..n], rows[n].areas[0], k);
    }
  }

  lemma EveryRow(layout: Layout, areas: seq<real>, whole: Rect, side: real, rows: seq<Row>, k: nat)
    requires layout.InRows(areas, whole, side, rows) && k < |rows|
    ensures RowAt(layout, rows, whole, side, k)
  {
    hide Layout.IsRow, Layout.Kept, Layout.Worse, Layout.Greedy, Layout.RowsSoFar;
    var n := |rows| - 1;
    SoFarAt(layout, rows[..n], whole, side, rows[n].rect, rows[n].side, k);
    NotEmpty(layout, rows[n]);
    if layout.mode.Squarify? && k < n {
      GreedyAt(layout, rows[..n], rows[n].areas[0], k);
    }
  }

  lemma NotEmpty(layout: Layout, r: Row)
    requires layout.IsRow(r)
    ensures r.areas != []
  {
    hide InRow, InColumn;
  }

  /** A squarified layout has all its rows along the lesser side of what is left. */
  lemma SquarifiedAlongLesserSide(layout: Layout, node: Cell, rows: seq<Row>, k: nat)
    requires node.Rectangle().Proper() && Arranged(layout, node, rows) && layout.mode.Squarify? && k < |rows|
    ensures RowAt(layout, rows, Padded(node.Rectangle(), node.padding), rows[0].side, k)
    ensures rows[k].side == Min(rows[k].rect.dx, rows[k].rect.dy)
  {
    hide Layout.InRows, RowAt, Padded, Layout.IsRow;
    var rect := Padded(node.Rectangle(), node.padding);
    EveryRow(layout, Areas(Backwards(node.children)), rect, layout.FirstSide(rect, node.depth), rows, k);
    EveryRow(layout, Areas(Backwards(node.children)), rect, layout.FirstSide(rect, node.depth), rows, 0);
    SideOf(layout, rows, rect, layout.FirstSide(rect, node.depth), 0);
    SideOf(layout, rows, rect, layout.FirstSide(rect, node.depth), k);
  }

  lemma SideOf(layout: Layout, rows: seq<Row>, whole: Rect, side: real, k: nat)
    requires k < |rows| && RowAt(layout, rows, whole, side, k)
    ensures rows[k].side == (if k == 0 then side else Min(rows[k].rect.dx, rows[k].rect.dy))
    ensures k == 0 ==> rows[k].rect == whole
  {
    hide Layout.IsRow, Layout.Kept, Layout.Worse;
  }

  /** In the other modes the children lie in one row: side by side as high as the rectangle, or one below the other as
      wide. Slices are side by side, dices one below the other, and both alternate with the depth in the third mode.
      In a square, dices are side by side too. */
  lemma SlicesAndDices(layout: Layout, node: Cell, i: nat)
    requires LaidOut(layout, node) && !layout.mode.Squarify? && i < |node.children|
    ensures var rect, c := Padded(node.Rectangle(), node.padding), node.children[i].Rectangle();
      if layout.mode.Slice? || (layout.mode.SliceDice? && node.depth % 2 == 0) || rect.dx == rect.dy then
        c.y == rect.y && c.dy == rect.dy
      else
        c.x == rect.x && c.dx == rect.dx
  {
    hide Padded, Tiles, FlatAreas, Layout.IsRow, InProportion, Summed, Scaled, Rectangles, FlatTiles, Areas;
    hide Layout.Kept, Layout.Greedy, Layout.Exact;
    var rows: seq<Row> :| Arranged(layout, node, rows);
    var rect, n := Padded(node.Rectangle(), node.padding), |node.children|;
    EveryRow(layout, Areas(Backwards(node.children)), rect, layout.FirstSide(rect, node.depth), rows, 0);
    OneRow(rows);
    assert rows[0].tiles[n - 1 - i] == Rectangles(node.children)[i];
    FlushedRow(layout, rows[0], n - 1 - i);
  }

  /** A flushed row fills its rectangle the other way. */
  lemma FlushedRow(layout: Layout, r: Row, i: nat)
    requires layout.IsRow(r) && r.flush && i < |r.tiles|
    ensures if r.side == r.rect.dx then r.tiles[i].y == r.rect.y && r.tiles[i].dy == r.rect.dy
      else r.tiles[i].x == r.rect.x && r.tiles[i].dx == r.rect.dx
  {
  }

  lemma OneRow(rows: seq<Row>)
    requires |rows| == 1
    ensures FlatTiles(rows) == rows[0].tiles && rows[..0] == []
  {
    assert FlatTiles(rows[..0]) == [];
  }

  // ---------- There is only one layout ----------

  lemma {:induction false} TilesInRowOnce(layout: Layout, areas: seq<real>, s: seq<Rect>, t: seq<Rect>, strip: Rect,
      i: nat)
    requires InRow(s, strip) && InRow(t, strip) && |s| == |t| == |areas| && i <= |s|
    requires layout.WidthsShared(areas, s, |s| - 1, strip) && layout.WidthsShared(areas, t, |t| - 1, strip)
    ensures s[..i] == t[..i]
    decreases i
  {
    hide Layout.Rounded;
    if i > 0 {
      TilesInRowOnce(layout, areas, s, t, strip, i - 1);
      if i > 1 { assert s[..i - 1][i - 2] == t[..i - 1][i - 2]; }
      assert s[i - 1] == t[i - 1];
      assert s[..i] == s[..i - 1] + [s[i - 1]] && t[..i] == t[..i - 1] + [t[i - 1]];
    }
  }

  lemma {:induction false} TilesInColumnOnce(layout: Layout, areas: seq<real>, s: seq<Rect>, t: seq<Rect>, strip: Rect,
      i: nat)
    requires InColumn(s, strip) && InColumn(t, strip) && |s| == |t| == |areas| && i <= |s|
    requires layout.HeightsShared(areas, s, |s| - 1, strip) && layout.HeightsShared(areas, t, |t| - 1, strip)
    ensures s[..i] == t[..i]
    decreases i
  {
    hide Layout.Rounded;
    if i > 0 {
      TilesInColumnOnce(layout, areas, s, t, strip, i - 1);
      if i > 1 { assert s[..i - 1][i - 2] == t[..i - 1][i - 2]; }
      assert s[i - 1] == t[i - 1];
      assert s[..i] == s[..i - 1] + [s[i - 1]] && t[..i] == t[..i - 1] + [t[i - 1]];
    }
  }

  /** A row's areas, place and side say where its cells go and what it leaves. */
  lemma TilesOnce(layout: Layout, a: Row, b: Row)
    requires layout.IsRow(a) && layout.IsRow(b) && a.areas == b.areas && a.rect == b.rect && a.side == b.side
    requires a.flush == b.flush
    ensures a == b
  {
    hide InRow, InColumn, Layout.WidthsShared, Layout.HeightsShared, Layout.Depth;
    var n := |a.tiles|;
    if a.side == a.rect.dx {
      var v := layout.Depth(Total(a.areas), a.side, a.rect.dy, a.flush);
      TilesInRowOnce(layout, a.areas, a.tiles, b.tiles, Rect(a.rect.x, a.rect.y, a.rect.dx, v), n);
    } else {
      var v := layout.Depth(Total(a.areas), a.side, a.rect.dx, a.flush);
      TilesInColumnOnce(layout, a.areas, a.tiles, b.tiles, Rect(a.rect.x, a.rect.y, v, a.rect.dy), n);
    }
    assert a.tiles[..n] == a.tiles && b.tiles[..n] == b.tiles;
  }

  lemma {:induction false} FlatPrefix(rows: seq<Row>, k: nat)
    requires k < |rows|
    ensures FlatAreas(rows[..k + 1]) == FlatAreas(rows[..k]) + rows[k].areas
    ensures FlatAreas(rows[..k + 1]) <= FlatAreas(rows)
    decreases |rows| - k
  {
    assert rows[..k + 1][..k] == rows[..k];
    if k + 1 < |rows| {
      FlatPrefix(rows, k + 1);
    } else {
      assert rows[..k + 1] == rows;
    }
  }

  /** Where two layouts agree on the rows before, they agree on the next one. */
  lemma NextRowOnce(layout: Layout, areas: seq<real>, whole: Rect, side: real, rows: seq<Row>, rows': seq<Row>, k: nat)
    requires layout.InRows(areas, whole, side, rows) && layout.InRows(areas, whole, side, rows')
    requires k < |rows| && k < |rows'| && rows[..k] == rows'[..k]
    ensures rows[k] == rows'[k]
  {
    hide Layout.IsRow, Layout.Kept, Layout.Worse, Layout.InRows, FlatAreas, Layout.NoWorse;
    EveryRow(layout, areas, whole, side, rows, k);
    EveryRow(layout, areas, whole, side, rows', k);
    SameAreas(layout, areas, whole, side, rows, rows', k);
    if k > 0 { assert rows[k - 1] == rows[..k][k - 1] == rows'[k - 1]; }
    TilesOnce(layout, rows[k], rows'[k]);
  }

  lemma SameAreas(layout: Layout, areas: seq<real>, whole: Rect, side: real, rows: seq<Row>, rows': seq<Row>, k: nat)
    requires layout.InRows(areas, whole, side, rows) && layout.InRows(areas, whole, side, rows')
    requires k < |rows| && k < |rows'| && rows[..k] == rows'[..k]
    ensures rows[k].areas == rows'[k].areas && (k == |rows| - 1 <==> k == |rows'| - 1)
  {
    hide Layout.IsRow, Layout.Kept, Layout.Worse, FlatAreas, Layout.RowsSoFar, Layout.Greedy;
    var off := |FlatAreas(rows[..k])|;
    FlatPrefix(rows, k);
    FlatPrefix(rows', k);
    var a, b := rows[k].areas, rows'[k].areas;
    assert a == areas[off..off + |a|] && b == areas[off..off + |b|];
    SideOnce(layout, areas, whole, side, rows, rows', k);
    NotShorter(layout, areas, whole, side, rows, rows', k);
    NotShorter(layout, areas, whole, side, rows', rows, k);
    LastOrMore(layout, areas, whole, side, rows, k);
    LastOrMore(layout, areas, whole, side, rows', k);
  }

  lemma SideOnce(layout: Layout, areas: seq<real>, whole: Rect, side: real, rows: seq<Row>, rows': seq<Row>, k: nat)
    requires layout.InRows(areas, whole, side, rows) && layout.InRows(areas, whole, side, rows')
    requires k < |rows| && k < |rows'| && rows[..k] == rows'[..k]
    ensures rows[k].side == rows'[k].side
  {
    hide Layout.IsRow, Layout.Kept, Layout.Worse, Layout.InRows, FlatAreas;
    EveryRow(layout, areas, whole, side, rows, k);
    EveryRow(layout, areas, whole, side, rows', k);
    if k > 0 { assert rows[k - 1] == rows[..k][k - 1] == rows'[k - 1]; }
  }

  /** The last row ends with the last area, and the others before. */
  lemma LastOrMore(layout: Layout, areas: seq<real>, whole: Rect, side: real, rows: seq<Row>, k: nat)
    requires layout.InRows(areas, whole, side, rows) && k < |rows|
    ensures var end := |FlatAreas(rows[..k])| + |rows[k].areas|;
      && end <= |areas| && (k == |rows| - 1 <==> end == |areas|)
      && (k < |rows| - 1 ==> rows[k + 1].areas != [] && rows[k + 1].areas[0] == areas[end])
  {
    hide Layout.IsRow, Layout.Kept, Layout.Worse, FlatAreas, Layout.RowsSoFar, Layout.Greedy;
    FlatPrefix(rows, k);
    if k == |rows| - 1 {
      assert rows[..k + 1] == rows;
    } else {
      FlatPrefix(rows, k + 1);
      EveryRow(layout, areas, whole, side, rows, k);
      var end := |FlatAreas(rows[..k])| + |rows[k].areas|;
      assert FlatAreas(rows[..k + 2])[end] == rows[k + 1].areas[0];
    }
  }

  /** A row is not closed before another one would be. */
  lemma NotShorter(layout: Layout, areas: seq<real>, whole: Rect, side: real, rows: seq<Row>, rows': seq<Row>, k: nat)
    requires layout.InRows(areas, whole, side, rows) && layout.InRows(areas, whole, side, rows')
    requires k < |rows| && k < |rows'| && rows[..k] == rows'[..k] && rows[k].side == rows'[k].side
    ensures |rows'[k].areas| <= |rows[k].areas|
  {
    hide Layout.IsRow, Layout.Worse, FlatAreas, Layout.RowsSoFar, Layout.Greedy, Layout.InRows, Layout.NoWorse;
    var off, a, b := |FlatAreas(rows[..k])|, rows[k].areas, rows'[k].areas;
    EveryRow(layout, areas, whole, side, rows, k);
    EveryRow(layout, areas, whole, side, rows', k);
    LastOrMore(layout, areas, whole, side, rows, k);
    LastOrMore(layout, areas, whole, side, rows', k);
    FlatSlices(layout, areas, whole, side, rows, k);
    FlatSlices(layout, areas, whole, side, rows', k);
    var m := |a|;
    NotEmpty(layout, rows[k]);
    if m < |b| {
      assert b[..m] == a && b[m] == areas[off + m] == rows[k + 1].areas[0];
      assert layout.NoWorse(b[..m], b[m], rows'[k].side);
      layout.NotBoth(a, b[m], rows[k].side);
    }
  }

  lemma FlatSlices(layout: Layout, areas: seq<real>, whole: Rect, side: real, rows: seq<Row>, k: nat)
    requires layout.InRows(areas, whole, side, rows) && k < |rows|
    ensures var off := |FlatAreas(rows[..k])|;
      off + |rows[k].areas| <= |areas| && rows[k].areas == areas[off..off + |rows[k].areas|]
  {
    hide Layout.IsRow, Layout.Kept, Layout.Worse, FlatAreas, Layout.RowsSoFar, Layout.Greedy;
    FlatPrefix(rows, k);
  }

  lemma {:induction false} FrontOnce(layout: Layout, areas: seq<real>, whole: Rect, side: real, rows: seq<Row>,
      rows': seq<Row>, k: nat)
    requires layout.InRows(areas, whole, side, rows) && layout.InRows(areas, whole, side, rows')
    requires k <= |rows| && k <= |rows'|
    ensures rows[..k] == rows'[..k]
    decreases k
  {
    hide Layout.InRows;
    if k > 0 {
      FrontOnce(layout, areas, whole, side, rows, rows', k - 1);
      NextRowOnce(layout, areas, whole, side, rows, rows', k - 1);
      assert rows[..k] == rows[..k - 1] + [rows[k - 1]] && rows'[..k] == rows'[..k - 1] + [rows'[k - 1]];
    }
  }

  /** Areas are laid out in rows in only one way. */
  lemma RowsOnce(layout: Layout, areas: seq<real>, whole: Rect, side: real, rows: seq<Row>, rows': seq<Row>)
    requires layout.InRows(areas, whole, side, rows) && layout.InRows(areas, whole, side, rows')
    ensures rows == rows'
  {
    hide Layout.IsRow, Layout.RowsSoFar, Layout.Kept, Layout.Greedy;
    var k := (if |rows| < |rows'| then |rows| else |rows'|) - 1;
    FrontOnce(layout, areas, whole, side, rows, rows', k);
    SameAreas(layout, areas, whole, side, rows, rows', k);
    FrontOnce(layout, areas, whole, side, rows, rows', k + 1);
    assert rows[..k + 1] == rows && rows'[..k + 1] == rows';
  }
}
