/** Rectangles that tile a rectangle. */
module Tiling {

  datatype Rect = Rect(x: real, y: real, dx: real, dy: real) {
    predicate Proper() { dx >= 0.0 && dy >= 0.0 }

    predicate Has(px: real, py: real) { x <= px < x + dx && y <= py < y + dy }

    function Area(): real { dx * dy }
  }

  ghost function AreaOf(ts: seq<Rect>): real {
    if ts == [] then 0.0 else AreaOf(ts[..|ts| - 1]) + ts[|ts| - 1].Area()
  }

  ghost predicate Covered(ts: seq<Rect>, px: real, py: real) {
    exists i :: 0 <= i < |ts| && ts[i].Has(px, py)
  }

  /** Every point of r lies in exactly one of the rectangles, no other point lies in any, and the areas add up. */
  ghost predicate Tiles(ts: seq<Rect>, r: Rect) {
    && (forall i :: 0 <= i < |ts| ==> ts[i].Proper())
    && (forall px: real, py: real :: r.Has(px, py) <==> Covered(ts, px, py))
    && (forall i, j, px: real, py: real :: 0 <= i < j < |ts| && ts[i].Has(px, py) ==> !ts[j].Has(px, py))
    && AreaOf(ts) == r.Area()
  }

  lemma {:induction false} AreaSplit(ts: seq<Rect>, us: seq<Rect>)
    ensures AreaOf(ts + us) == AreaOf(ts) + AreaOf(us)
  {
    if us == [] {
      assert ts + us == ts;
    } else {
      AreaSplit(ts, us[..|us| - 1]);
      assert (ts + us)[..|ts + us| - 1] == ts + us[..|us| - 1];
    }
  }

  lemma CoveredSplit(ts: seq<Rect>, us: seq<Rect>, px: real, py: real)
    ensures Covered(ts + us, px, py) <==> Covered(ts, px, py) || Covered(us, px, py)
  {
    var all := ts + us;
    if Covered(ts, px, py) {
      var i :| 0 <= i < |ts| && ts[i].Has(px, py);
      assert all[i].Has(px, py);
    }
    if Covered(us, px, py) {
      var i :| 0 <= i < |us| && us[i].Has(px, py);
      assert all[|ts| + i].Has(px, py);
    }
  }

  /** Tiles may be replaced by tiles of theirs. */
  lemma TilesReplaced(ts: seq<Rect>, t: Rect, us: seq<Rect>, r: Rect)
    requires Tiles(ts + [t], r) && Tiles(us, t)
    ensures Tiles(ts + us, r)
  {
    forall px: real, py: real ensures r.Has(px, py) <==> Covered(ts + us, px, py) {
      CoveredSplit(ts, [t], px, py);
      CoveredSplit(ts, us, px, py);
      OneCovered(t, px, py);
    }
    StillApart(ts, t, us, r);
    AreaSplit(ts, [t]);
    AreaSplit(ts, us);
    assert AreaOf([t]) == t.Area();
  }

  lemma OneCovered(t: Rect, px: real, py: real)
    ensures Covered([t], px, py) <==> t.Has(px, py)
  {
    assert [t][0] == t;
  }

  lemma StillApart(ts: seq<Rect>, t: Rect, us: seq<Rect>, r: Rect)
    requires Tiles(ts + [t], r) && Tiles(us, t)
    ensures forall i, j, px: real, py: real :: 0 <= i < j < |ts + us| && (ts + us)[i].Has(px, py) ==>
      !(ts + us)[j].Has(px, py)
  {
    var all, before := ts + us, ts + [t];
    forall i, j, px: real, py: real | 0 <= i < j < |all| && all[i].Has(px, py) ensures !all[j].Has(px, py) {
      if j < |ts| {
        assert before[i] == all[i] && before[j] == all[j];
      } else if i >= |ts| {
        assert us[i - |ts|] == all[i] && us[j - |ts|] == all[j];
      } else {
        assert before[i] == all[i] && before[|ts|] == t && us[j - |ts|] == all[j];
        if all[j].Has(px, py) { assert Covered(us, px, py); }
      }
    }
  }

  /** A rectangle cut in two. */
  lemma CutX(r: Rect, w: real)
    requires r.Proper() && 0.0 <= w <= r.dx
    ensures Tiles([Rect(r.x, r.y, w, r.dy), Rect(r.x + w, r.y, r.dx - w, r.dy)], r)
  {
    Cut(r, Rect(r.x, r.y, w, r.dy), Rect(r.x + w, r.y, r.dx - w, r.dy));
  }

  lemma CutY(r: Rect, h: real)
    requires r.Proper() && 0.0 <= h <= r.dy
    ensures Tiles([Rect(r.x, r.y, r.dx, h), Rect(r.x, r.y + h, r.dx, r.dy - h)], r)
  {
    Cut(r, Rect(r.x, r.y, r.dx, h), Rect(r.x, r.y + h, r.dx, r.dy - h));
  }

  lemma Cut(r: Rect, a: Rect, b: Rect)
    requires r.Proper() && a.Proper() && b.Proper() && a.Area() + b.Area() == r.Area()
    requires forall px: real, py: real :: r.Has(px, py) <==> a.Has(px, py) || b.Has(px, py)
    requires forall px: real, py: real :: !(a.Has(px, py) && b.Has(px, py))
    ensures Tiles([a, b], r)
  {
    var ts := [a, b];
    assert ts == [a] + [b];
    forall px: real, py: real ensures r.Has(px, py) <==> Covered(ts, px, py) {
      CoveredSplit([a], [b], px, py);
      OneCovered(a, px, py);
      OneCovered(b, px, py);
    }
    AreaSplit([a], [b]);
    assert AreaOf([a]) == a.Area() && AreaOf([b]) == b.Area();
  }

  /** Rectangles side by side, as high as r and together as wide. */
  ghost predicate InRow(us: seq<Rect>, r: Rect) {
    && us != [] && (forall i :: 0 <= i < |us| ==> us[i].y == r.y && us[i].dy == r.dy && us[i].dx >= 0.0)
    && us[0].x == r.x && us[|us| - 1].x + us[|us| - 1].dx == r.x + r.dx
    && forall i :: 0 < i < |us| ==> us[i].x == us[i - 1].x + us[i - 1].dx
  }

  ghost predicate InColumn(us: seq<Rect>, r: Rect) {
    && us != [] && (forall i :: 0 <= i < |us| ==> us[i].x == r.x && us[i].dx == r.dx && us[i].dy >= 0.0)
    && us[0].y == r.y && us[|us| - 1].y + us[|us| - 1].dy == r.y + r.dy
    && forall i :: 0 < i < |us| ==> us[i].y == us[i - 1].y + us[i - 1].dy
  }

  /** The part of a row that has been laid out, up to x. */
  ghost predicate RowSoFar(us: seq<Rect>, r: Rect, x: real) {
    && r.x <= x <= r.x + r.dx && (us == [] ==> x == r.x)
    && (forall i :: 0 <= i < |us| ==> us[i].y == r.y && us[i].dy == r.dy && us[i].dx >= 0.0)
    && (us != [] ==> us[0].x == r.x && us[|us| - 1].x + us[|us| - 1].dx == x)
    && forall i :: 0 < i < |us| ==> us[i].x == us[i - 1].x + us[i - 1].dx
  }

  lemma RowGoesOn(us: seq<Rect>, r: Rect, x: real, w: real)
    requires RowSoFar(us, r, x) && 0.0 <= w <= r.x + r.dx - x
    ensures RowSoFar(us + [Rect(x, r.y, w, r.dy)], r, x + w)
  {
  }

  /** The last rectangle gets what is left. */
  lemma RowEnds(us: seq<Rect>, r: Rect, x: real)
    requires RowSoFar(us, r, x) && us != []
    ensures var last := us[|us| - 1];
      last.dy == r.dy && InRow(us[|us| - 1 := last.(dx := last.dx + (r.x + r.dx - x))], r)
  {
  }

  ghost predicate ColumnSoFar(us: seq<Rect>, r: Rect, y: real) {
    && r.y <= y <= r.y + r.dy && (us == [] ==> y == r.y)
    && (forall i :: 0 <= i < |us| ==> us[i].x == r.x && us[i].dx == r.dx && us[i].dy >= 0.0)
    && (us != [] ==> us[0].y == r.y && us[|us| - 1].y + us[|us| - 1].dy == y)
    && forall i :: 0 < i < |us| ==> us[i].y == us[i - 1].y + us[i - 1].dy
  }

  lemma ColumnGoesOn(us: seq<Rect>, r: Rect, y: real, h: real)
    requires ColumnSoFar(us, r, y) && 0.0 <= h <= r.y + r.dy - y
    ensures ColumnSoFar(us + [Rect(r.x, y, r.dx, h)], r, y + h)
  {
  }

  lemma ColumnEnds(us: seq<Rect>, r: Rect, y: real)
    requires ColumnSoFar(us, r, y) && us != []
    ensures var last := us[|us| - 1];
      last.dx == r.dx && InColumn(us[|us| - 1 := last.(dy := last.dy + (r.y + r.dy - y))], r)
  {
  }

  lemma {:induction false} RowTiles(us: seq<Rect>, r: Rect)
    requires InRow(us, r) && r.dy >= 0.0
    ensures r.Proper() && Tiles(us, r)
  {
    if |us| == 1 {
      assert us == [r];
      Itself(r);
    } else {
      var w := us[0].dx;
      var rest := Rect(r.x + w, r.y, r.dx - w, r.dy);
      RowTiles(us[1..], rest);
      CutX(r, w);
      assert us[0] == Rect(r.x, r.y, w, r.dy) && [us[0], rest] == [us[0]] + [rest];
      TilesReplaced([us[0]], rest, us[1..], r);
      assert us == [us[0]] + us[1..];
    }
  }

  lemma {:induction false} ColumnTiles(us: seq<Rect>, r: Rect)
    requires InColumn(us, r) && r.dx >= 0.0
    ensures r.Proper() && Tiles(us, r)
  {
    if |us| == 1 {
      assert us == [r];
      Itself(r);
    } else {
      var h := us[0].dy;
      var rest := Rect(r.x, r.y + h, r.dx, r.dy - h);
      ColumnTiles(us[1..], rest);
      CutY(r, h);
      assert us[0] == Rect(r.x, r.y, r.dx, h) && [us[0], rest] == [us[0]] + [rest];
      TilesReplaced([us[0]], rest, us[1..], r);
      assert us == [us[0]] + us[1..];
    }
  }

  lemma Itself(r: Rect)
    requires r.Proper()
    ensures Tiles([r], r)
  {
    forall px: real, py: real ensures r.Has(px, py) <==> Covered([r], px, py) {
      OneCovered(r, px, py);
    }
  }

  /** An empty rest may be left out. */
  lemma EmptyRest(ts: seq<Rect>, t: Rect, r: Rect)
    requires Tiles(ts + [t], r) && (t.dx == 0.0 || t.dy == 0.0)
    ensures Tiles(ts, r)
  {
    var all := ts + [t];
    forall px: real, py: real ensures r.Has(px, py) <==> Covered(ts, px, py) {
      CoveredSplit(ts, [t], px, py);
      OneCovered(t, px, py);
    }
    forall i | 0 <= i < |ts| ensures all[i] == ts[i] {
    }
    AreaSplit(ts, [t]);
    assert AreaOf([t]) == 0.0;
  }

  lemma {:induction false} AreaReversed(ts: seq<Rect>, us: seq<Rect>)
    requires |ts| == |us| && forall i :: 0 <= i < |ts| ==> us[i] == ts[|ts| - 1 - i]
    ensures AreaOf(us) == AreaOf(ts)
  {
    if ts != [] {
      var n := |ts| - 1;
      AreaReversed(ts[..n], us[1..]);
      AreaSplit([us[0]], us[1..]);
      assert us == [us[0]] + us[1..] && AreaOf([us[0]]) == us[0].Area();
    }
  }

  /** The order of the tiles does not matter. */
  lemma TilesReversed(ts: seq<Rect>, us: seq<Rect>, r: Rect)
    requires Tiles(ts, r) && |ts| == |us| && forall i :: 0 <= i < |ts| ==> us[i] == ts[|ts| - 1 - i]
    ensures Tiles(us, r)
  {
    var n := |ts| - 1;
    forall px: real, py: real ensures Covered(us, px, py) <==> Covered(ts, px, py) {
      forall i | 0 <= i <= n ensures us[i] == ts[n - i] {
      }
      if Covered(ts, px, py) {
        var i :| 0 <= i < |ts| && ts[i].Has(px, py);
        assert us[n - i].Has(px, py);
      }
    }
    forall i, j, px: real, py: real | 0 <= i < j < |us| && us[i].Has(px, py) ensures !us[j].Has(px, py) {
      assert us[i] == ts[n - i] && us[j] == ts[n - j];
    }
    AreaReversed(ts, us);
  }

  lemma TilesSwapped(ts: seq<Rect>, us: seq<Rect>, r: Rect)
    requires Tiles(ts + us, r)
    ensures Tiles(us + ts, r)
  {
    var before, after := ts + us, us + ts;
    forall px: real, py: real ensures Covered(after, px, py) <==> Covered(before, px, py) {
      CoveredSplit(ts, us, px, py);
      CoveredSplit(us, ts, px, py);
    }
    forall i, j, px: real, py: real | 0 <= i < j < |after| && after[i].Has(px, py) ensures !after[j].Has(px, py) {
      var i', j' := if i < |us| then i + |ts| else i - |us|, if j < |us| then j + |ts| else j - |us|;
      assert before[i'] == after[i] && before[j'] == after[j];
    }
    forall i | 0 <= i < |after| ensures after[i].Proper() {
      var i' := if i < |us| then i + |ts| else i - |us|;
      assert before[i'] == after[i];
    }
    AreaSplit(ts, us);
    AreaSplit(us, ts);
  }

  /** A row taken off the top. */
  lemma RowOff(us: seq<Rect>, r: Rect, h: real)
    requires r.Proper() && 0.0 <= h <= r.dy && InRow(us, Rect(r.x, r.y, r.dx, h))
    ensures Tiles(us + [Rect(r.x, r.y + h, r.dx, r.dy - h)], r)
  {
    hide Tiles, InRow;
    var top, rest := Rect(r.x, r.y, r.dx, h), Rect(r.x, r.y + h, r.dx, r.dy - h);
    CutY(r, h);
    RowTiles(us, top);
    assert [top, rest] == [top] + [rest];
    TilesSwapped([top], [rest], r);
    TilesReplaced([rest], top, us, r);
    TilesSwapped([rest], us, r);
  }

  lemma ColumnOff(us: seq<Rect>, r: Rect, w: real)
    requires r.Proper() && 0.0 <= w <= r.dx && InColumn(us, Rect(r.x, r.y, w, r.dy))
    ensures Tiles(us + [Rect(r.x + w, r.y, r.dx - w, r.dy)], r)
  {
    hide Tiles, InColumn;
    var left, rest := Rect(r.x, r.y, w, r.dy), Rect(r.x + w, r.y, r.dx - w, r.dy);
    CutX(r, w);
    ColumnTiles(us, left);
    assert [left, rest] == [left] + [rest];
    TilesSwapped([left], [rest], r);
    TilesReplaced([rest], left, us, r);
    TilesSwapped([rest], us, r);
  }
}
