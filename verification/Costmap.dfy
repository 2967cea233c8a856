// The cost map: where a point of the world lies on it, and setting the cost of a polygon's region.
module Costmap {
  import opened Options
  import opened Grid
  import opened Lines
  import opened Raster
  import opened Outline
  import opened ColumnSort
  import opened Squares

  type Cost = c: int | 0 <= c <= 255

  // A list of cells that grows and is sorted in place.
  class CellList {
    var cells: seq<Cell>

    constructor ()
      ensures cells == []
    {
      cells := [];
    }

    /** A sort that steps back after every exchange. */
    method SortByX()
      requires cells != [] && forall k :: 0 <= k < |cells| ==> cells[k].x >= 0
      modifies this
      ensures SortedByX(cells) && Rearranged(old(cells), cells)
    {
      var i := 0;
      hide Weight, Xs, Swap, Rearranged, Upto;
      SortStarts(cells);
      while i < |cells| - 1
        invariant 0 <= i < |cells| && Upto(cells, i) && Rearranged(old(cells), cells)
        decreases Weight(Xs(cells)), |cells| - i
      {
        if cells[i].x > cells[i + 1].x {
          ghost var before := cells;
          Exchanged(old(cells), before, i);
          var swap := cells[i];
          cells := cells[i := cells[i + 1]];
          cells := cells[i + 1 := swap];
          SwapIs(before, i);
          if i > 0 {
            i := i - 1;
          }
        } else {
          UptoNext(cells, i);
          i := i + 1;
        }
      }
      SortEnds(cells, i);
    }

    /** What is taken for one column: where the next is looked for, the lowest and the highest entry. */
    method Column(i: nat, x: int) returns (next: nat, minPt: Cell, maxPt: Cell)
      requires i + 1 < |cells|
      ensures (next, minPt, maxPt) == ColumnAt(cells, i, x)
    {
      if cells[i].y < cells[i + 1].y {
        minPt, maxPt := cells[i], cells[i + 1];
      } else {
        minPt, maxPt := cells[i + 1], cells[i];
      }
      next := i + 2;
      while next < |cells| && cells[next].x == x
        invariant next <= |cells| && Widened(cells, next, x, minPt, maxPt) == ColumnAt(cells, i, x)
      {
        if cells[next].y < minPt.y {
          minPt := cells[next];
        } else if cells[next].y > maxPt.y {
          maxPt := cells[next];
        }
        next := next + 1;
      }
    }

    // The cells of one column, from the lowest entry up to below the highest.
    method Raise(x: int, minPt: Cell, maxPt: Cell)
      requires minPt.y <= maxPt.y
      modifies this
      ensures cells == old(cells) + Upward(Cell(x, minPt.y), maxPt.y - minPt.y)
    {
      for y := minPt.y to maxPt.y
        invariant cells == old(cells) + Upward(Cell(x, minPt.y), y - minPt.y)
      {
        cells := cells + [Cell(x, y)];
      }
    }

    // The columns from minX to maxX one after the other, until the entries run out.
    method RaiseColumns(minX: int, maxX: int)
      requires cells != []
      modifies this
      ensures cells == FillFrom(old(cells), 0, minX, maxX)
    {
      hide FillFrom, ColumnAt, Upward;
      var i: nat := 0;
      var x := minX;
      while x <= maxX
        invariant cells != [] && FillFrom(cells, i, x, maxX) == FillFrom(old(cells), 0, minX, maxX)
        decreases maxX - x
      {
        if i >= |cells| - 1 {
          break;
        }
        FillFromStep(cells, i, x, maxX);
        var minPt, maxPt;
        i, minPt, maxPt := Column(i, x);
        Raise(x, minPt, maxPt);
        x := x + 1;
      }
      FillFromEnds(cells, i, x, maxX);
    }

    /**
     * Every column gets the cells from its lowest entry up to below its highest. In a sorted list
     * with two entries in each column these are the rest of its region, each cell once.
     */
    method FillColumns()
      requires cells != []
      modifies this
      ensures cells == FillFrom(old(cells), 0, old(cells[0].x), old(cells[|cells| - 1].x))
      ensures SortedByX(old(cells)) && TwoEach(old(cells)) ==>
        old(cells) <= cells && Filled(old(cells), cells[|old(cells)|..], old(cells[|cells| - 1].x) + 1)
    {
      hide SortedByX, TwoEach, Filled, FillFrom;
      if SortedByX(cells) && TwoEach(cells) { FillAtOnce(cells); }
      RaiseColumns(cells[0].x, cells[|cells| - 1].x);
    }
  }

  /** Each column from the first entry's to the last entry's holds two entries or more. */
  ghost predicate TwoEach(cells: seq<Cell>) {
    forall a, b, x :: a in cells && b in cells && a.x <= x <= b.x ==> InColumn(cells, x) >= 2
  }

  lemma FillAtOnce(cells: seq<Cell>)
    requires cells != [] && SortedByX(cells) && TwoEach(cells)
    ensures var r := FillFrom(cells, 0, cells[0].x, cells[|cells| - 1].x);
      cells <= r && Filled(cells, r[|cells|..], cells[|cells| - 1].x + 1)
  {
    var a, b := cells[0], cells[|cells| - 1];
    assert a in cells && b in cells;
    FillStarts(cells);
    FillFromFills(cells, cells, 0, a.x, b.x);
  }

  lemma FillStarts(cells: seq<Cell>)
    requires cells != [] && SortedByX(cells)
    ensures cells[0].x <= cells[|cells| - 1].x && Begins(cells, 0, cells[0].x)
      && Filled(cells, cells[|cells|..], cells[0].x)
  {}

  // ------------------------------------------------------------ the map

  class Costmap2D {
    const m: Grid
    const originX: real
    const originY: real
    const resolution: real
    const costmap: array<Cost>

    ghost predicate Valid() {
      costmap.Length == Size(m) && resolution > 0.0
    }

    constructor (m: Grid, originX: real, originY: real, resolution: real, costmap: array<Cost>)
      requires costmap.Length == Size(m) && resolution > 0.0
      ensures Valid() && this.m == m && this.costmap == costmap
      ensures this.originX == originX && this.originY == originY && this.resolution == resolution
    {
      this.m, this.originX, this.originY, this.resolution, this.costmap := m, originX, originY, resolution, costmap;
    }

    /** The cell a point of the world lies in: the one whose square holds it, if that is on the map. */
    method World2Map(wx: real, wy: real) returns (c: Option<Cell>)
      requires Valid()
      ensures forall cell :: c == Some(cell) <==>
        OnMap(m, cell) && InSquare(wx - originX, resolution, cell.x) && InSquare(wy - originY, resolution, cell.y)
    {
      hide InSquare;
      c := None;
      NoSquareBelow(wx - originX, resolution);
      NoSquareBelow(wy - originY, resolution);
      if wx < originX || wy < originY {
        return;
      }
      var mx := ((wx - originX) / resolution).Floor;
      var my := ((wy - originY) / resolution).Floor;
      SquareOf(wx - originX, resolution);
      SquareOf(wy - originY, resolution);
      if mx < m.width && my < m.height {
        c := Some(Cell(mx, my));
      }
    }

    // One side of the outline, cell by cell.
    method GatherLine(a: Cell, b: Cell, list: CellList)
      requires OnMap(m, a) && OnMap(m, b)
      modifies list
      ensures list.cells == old(list.cells) + Line(a, b)
    {
      hide Line, Index2Cells, Inside;
      var visited := RaytraceLine(m, a, b);
      for k := 0 to |visited|
        invariant list.cells == old(list.cells) + Line(a, b)[..k]
      {
        list.cells := list.cells + [Index2Cells(m, visited[k])];
      }
    }

    /** The outline of a polygon: all its sides, and the one back to the first corner. */
    method GetConvexEdge(polygon: seq<Cell>, list: CellList)
      requires polygon != [] && forall k :: 0 <= k < |polygon| ==> OnMap(m, polygon[k])
      modifies list
      ensures list.cells == old(list.cells) + OutlineOf(polygon)
    {
      hide Line;
      ghost var p := Closed(polygon);
      for i := 0 to |polygon| - 1
        invariant list.cells == old(list.cells) + Edges(p[..i + 1])
      {
        EdgesNext(p, i);
        GatherLine(polygon[i], polygon[i + 1], list);
      }
      var last := |polygon| - 1;
      EdgesNext(p, last);
      GatherLine(polygon[last], polygon[0], list);
      assert p[..|p|] == p;
    }

    /**
     * The outline of a polygon with three corners or more joins the list, which is sorted by column
     * and filled from there. If every column then holds two entries, as it does when the list was
     * empty, the cells are the region of all that was listed, and no cell of the fill comes twice.
     */
    method FillConvexCells(polygon: seq<Cell>, list: CellList)
      requires forall k :: 0 <= k < |polygon| ==> OnMap(m, polygon[k])
      requires forall k :: 0 <= k < |list.cells| ==> list.cells[k].x >= 0
      modifies list
      ensures |polygon| < 3 ==> list.cells == old(list.cells)
      ensures |polygon| >= 3 ==> IsFilling(old(list.cells) + OutlineOf(polygon), list.cells)
      ensures |polygon| >= 3 && TwoEach(old(list.cells) + OutlineOf(polygon)) ==>
        IsFill(old(list.cells) + OutlineOf(polygon), list.cells)
      ensures |polygon| >= 3 && old(list.cells) == [] ==> IsFill(OutlineOf(polygon), list.cells)
    {
      if |polygon| < 3 {
        return;
      }
      hide OutlineOf, SortedByX, Rearranged, InColumn, Filled, IsFill, IsFilling, OnMap, TwoEach, FillFrom;
      GetConvexEdge(polygon, list);
      ghost var all := list.cells;
      OutlineOnMap(m, polygon);
      OnMapColumns(m, OutlineOf(polygon));
      list.SortByX();
      FillingIs(all, list.cells);
      list.FillColumns();
      if TwoEach(all) { FillingIsFill(all, list.cells); }
      if old(list.cells) == [] {
        assert all == OutlineOf(polygon);
        OutlineTwoEach(polygon);
      }
    }

    /**
     * Exactly the cells of the polygon's region get the new cost; if a corner is off the map, nothing changes.
     * The polygon of cells is the one World2Map makes of the corners.
     */
    method SetConvexRegionCost(polygon: seq<(real, real)>, value: Cost) returns (ok: bool, ghost corners: seq<Cell>)
      requires Valid()
      modifies costmap
      ensures ok ==> |corners| == |polygon| && forall k :: 0 <= k < |polygon| ==> IsCellOf(corners[k], polygon[k])
      ensures !ok ==> exists k :: 0 <= k < |polygon| && forall c :: !IsCellOf(c, polygon[k])
      ensures !ok || |polygon| < 3 ==> forall i :: 0 <= i < costmap.Length ==> costmap[i] == old(costmap[i])
      ensures ok && |polygon| >= 3 ==> forall i :: 0 <= i < costmap.Length ==>
        costmap[i] == if InRegion(OutlineOf(corners), Index2Cells(m, i)) then value else old(costmap[i])
    {
      hide InSquare, OutlineOf, InRegion, Index2Cells, Size;
      corners := [];
      var mapPolygon: seq<Cell> := [];
      for i := 0 to |polygon|
        invariant |mapPolygon| == i && forall k :: 0 <= k < i ==> IsCellOf(mapPolygon[k], polygon[k])
        invariant forall i :: 0 <= i < costmap.Length ==> costmap[i] == old(costmap[i])
      {
        var loc := World2Map(polygon[i].0, polygon[i].1);
        if loc == None {
          assert forall c :: !IsCellOf(c, polygon[i]);
          return false, [];
        }
        mapPolygon := mapPolygon + [loc.value];
      }
      ok, corners := true, mapPolygon;
      var list := new CellList();
      FillConvexCells(mapPolygon, list);
      PaintCells(list.cells, mapPolygon, value);
    }

    // The cell that holds a point of the world.
    predicate IsCellOf(c: Cell, p: (real, real)) {
      OnMap(m, c) && InSquare(p.0 - originX, resolution, c.x) && InSquare(p.1 - originY, resolution, c.y)
    }

    // The loop that writes the cost of every listed cell.
    method PaintCells(cells: seq<Cell>, ghost polygon: seq<Cell>, value: Cost)
      requires Valid() && forall k :: 0 <= k < |polygon| ==> OnMap(m, polygon[k])
      requires if |polygon| < 3 then cells == [] else IsFill(OutlineOf(polygon), cells)
      modifies costmap
      ensures |polygon| < 3 ==> forall i :: 0 <= i < costmap.Length ==> costmap[i] == old(costmap[i])
      ensures |polygon| >= 3 ==> forall i :: 0 <= i < costmap.Length ==>
        costmap[i] == if InRegion(OutlineOf(polygon), Index2Cells(m, i)) then value else old(costmap[i])
    {
      hide OutlineOf, InRegion, Index2Cells, IsFill, OnMap, GetIndex;
      FillOnMap(m, polygon, cells);
      for k := 0 to |cells|
        invariant forall i :: 0 <= i < costmap.Length ==>
          costmap[i] == if Index2Cells(m, i) in cells[..k] then value else old(costmap[i])
      {
        IndexRoundTrip(m, cells[k]);
        InsideIs(m, GetIndex(m, cells[k]));
        costmap[GetIndex(m, cells[k])] := value;
        PaintedOne(m, cells, k);
      }
      assert cells[..|cells|] == cells;
      if |polygon| >= 3 { FillMembers(OutlineOf(polygon), cells); }
    }
  }

  lemma InsideIs(m: Grid, i: int)
    ensures Inside(m, i) <==> 0 <= i < Size(m)
  {}

  lemma FillMembers(outline: seq<Cell>, cells: seq<Cell>)
    requires IsFill(outline, cells)
    ensures forall c :: c in cells <==> InRegion(outline, c)
  {}

  // One more listed cell is one more index.
  lemma PaintedOne(m: Grid, cells: seq<Cell>, k: nat)
    requires k < |cells| && OnMap(m, cells[k])
    ensures m.width > 0
    ensures forall i :: 0 <= i < Size(m) ==>
      (Index2Cells(m, i) in cells[..k + 1] <==> Index2Cells(m, i) in cells[..k] || i == GetIndex(m, cells[k]))
  {
    IndexRoundTrip(m, cells[k]);
    hide Index2Cells, GetIndex;
    assert cells[..k + 1] == cells[..k] + [cells[k]];
    forall i | 0 <= i < Size(m)
      ensures Index2Cells(m, i) in cells[..k + 1] <==> Index2Cells(m, i) in cells[..k] || i == GetIndex(m, cells[k])
    {
      IndexIsUnique(m, i);
    }
  }

  lemma FillOnMap(m: Grid, polygon: seq<Cell>, cells: seq<Cell>)
    requires forall k :: 0 <= k < |polygon| ==> OnMap(m, polygon[k])
    requires if |polygon| < 3 then cells == [] else IsFill(OutlineOf(polygon), cells)
    ensures forall k :: 0 <= k < |cells| ==> OnMap(m, cells[k])
  {
    if |polygon| >= 3 {
      OutlineOnMap(m, polygon);
      hide OutlineOf;
      forall k | 0 <= k < |cells| ensures OnMap(m, cells[k]) {
        assert cells[k] in cells;
        var lo, hi :| Spans(OutlineOf(polygon), lo, hi, cells[k]);
      }
    }
  }

  lemma OnMapColumns(m: Grid, cells: seq<Cell>)
    requires forall k :: 0 <= k < |cells| ==> OnMap(m, cells[k])
    ensures forall k :: 0 <= k < |cells| ==> cells[k].x >= 0
  {}

  /** The outline sorted by column, then each cell of the rest of its region once. */
  ghost predicate IsFill(outline: seq<Cell>, cells: seq<Cell>) {
    && |outline| <= |cells| && SortedByX(cells[..|outline|]) && Rearranged(outline, cells[..|outline|])
    && (forall c :: c in cells <==> InRegion(outline, c))
    && (forall a, b :: |outline| <= a < b < |cells| ==> cells[a] != cells[b])
  }

  lemma EdgesNext(p: seq<Cell>, i: nat)
    requires i + 1 < |p|
    ensures Edges(p[..i + 2]) == Edges(p[..i + 1]) + Line(p[i], p[i + 1])
  {
    assert p[..i + 2][..i + 1] == p[..i + 1];
  }

  lemma OutlineOnMap(m: Grid, polygon: seq<Cell>)
    requires |polygon| >= 2 && forall k :: 0 <= k < |polygon| ==> OnMap(m, polygon[k])
    ensures OutlineOf(polygon) != [] && forall k :: 0 <= k < |OutlineOf(polygon)| ==> OnMap(m, OutlineOf(polygon)[k])
  {
    var p := Closed(polygon);
    CornersIn(p, 0);
    forall c | c in OutlineOf(polygon) ensures OnMap(m, c) {
      var k := CornersAround(p, c);
    }
  }

  /** The list behind any outline: sorted by column, then filled column by column. */
  ghost predicate IsFilling(all: seq<Cell>, cells: seq<Cell>) {
    0 < |all| <= |cells| &&
    var sorted := cells[..|all|];
    && SortedByX(sorted) && Rearranged(all, sorted)
    && cells == FillFrom(sorted, 0, sorted[0].x, sorted[|sorted| - 1].x)
  }

  lemma TwoEachRearranged(all: seq<Cell>, sorted: seq<Cell>)
    requires TwoEach(all) && Rearranged(all, sorted)
    ensures TwoEach(sorted)
  {
    SameMembers(all, sorted);
    forall a, b, x | a in sorted && b in sorted && a.x <= x <= b.x ensures InColumn(sorted, x) >= 2 {
      assert InColumn(all, x) >= 2;
    }
  }

  lemma FillingIs(all: seq<Cell>, sorted: seq<Cell>)
    requires SortedByX(sorted) && Rearranged(all, sorted) && all != []
    ensures sorted != [] && IsFilling(all, FillFrom(sorted, 0, sorted[0].x, sorted[|sorted| - 1].x))
  {
    hide FillFrom, SortedByX;
    assert FillFrom(sorted, 0, sorted[0].x, sorted[|sorted| - 1].x)[..|all|] == sorted;
  }

  /** Filling a list with two entries in each column makes it its region. */
  lemma FillingIsFill(all: seq<Cell>, cells: seq<Cell>)
    requires IsFilling(all, cells) && TwoEach(all)
    ensures IsFill(all, cells)
  {
    hide TwoEach, Filled, IsFill, FillFrom;
    var sorted := cells[..|all|];
    TwoEachRearranged(all, sorted);
    FillAtOnce(sorted);
    RegionFound(all, sorted, cells);
  }

  lemma OutlineTwoEach(polygon: seq<Cell>)
    requires |polygon| >= 2
    ensures TwoEach(OutlineOf(polygon))
  {
    hide OutlineOf, InColumn;
    forall a, b, x | a in OutlineOf(polygon) && b in OutlineOf(polygon) && a.x <= x <= b.x
      ensures InColumn(OutlineOf(polygon), x) >= 2
    {
      TwoPerColumn(polygon, a, b, x);
    }
  }

  /**
   * A single cell already listed in the column left of a polygon, and higher than it, spoils the
   * result: the cells below it are filled down to the polygon though nothing bounds them.
   */
  lemma ForeignCellSpoils(first: Cell, polygon: seq<Cell>, cells: seq<Cell>)
    requires |polygon| >= 2 && forall k :: 0 <= k < |polygon| ==> polygon[k].x == first.x + 1 && polygon[k].y < first.y
    requires IsFilling([first] + OutlineOf(polygon), cells)
    ensures !IsFill([first] + OutlineOf(polygon), cells)
  {
    var outline := OutlineOf(polygon);
    var all := [first] + outline;
    forall c | c in outline ensures c.x == first.x + 1 && c.y < first.y {
      var k := CornersAround(Closed(polygon), c);
    }
    CornersIn(Closed(polygon), 0);
    hide OutlineOf, Rearranged, FillFrom, InRegion;
    var sorted := cells[..|all|];
    FirstIsAlone(first, outline, sorted);
    FilledBelow(first, sorted);
    NotInRegion(first, outline, Cell(first.x, first.y - 1));
  }

  lemma FirstIsAlone(first: Cell, outline: seq<Cell>, sorted: seq<Cell>)
    requires Rearranged([first] + outline, sorted) && SortedByX(sorted) && outline != []
    requires forall c :: c in outline ==> c.x == first.x + 1 && c.y < first.y
    ensures |sorted| >= 2 && sorted[0] == first && sorted[1].y < first.y && sorted[|sorted| - 1].x >= first.x
  {
    var all := [first] + outline;
    SameMembers(all, sorted);
    assert all[0] == first && first in all && first in sorted && sorted[0] in sorted && sorted[1] in sorted;
    var k: nat :| k < |sorted| && sorted[k] == first;
    assert sorted[0] == first;
    assert first !in outline && multiset(all)[first] == 1;
    if sorted[1] == first {
      AtTwoPlaces(sorted);
      assert false;
    }
  }

  lemma AtTwoPlaces(s: seq<Cell>)
    requires |s| >= 2 && s[0] == s[1]
    ensures multiset(s)[s[0]] >= 2
  {
    assert s == [s[0]] + [s[0]] + s[2..];
  }

  lemma FilledBelow(first: Cell, sorted: seq<Cell>)
    requires |sorted| >= 2 && sorted[0] == first && sorted[1].y < first.y && sorted[|sorted| - 1].x >= first.x
    ensures Cell(first.x, first.y - 1) in FillFrom(sorted, 0, first.x, sorted[|sorted| - 1].x)
  {
    hide ColumnAt, FillFrom;
    var (next, lo, hi) := ColumnAt(sorted, 0, first.x);
    var up := Upward(Cell(first.x, lo.y), hi.y - lo.y);
    FillFromStep(sorted, 0, first.x, sorted[|sorted| - 1].x);
    assert up[first.y - 1 - lo.y] == Cell(first.x, first.y - 1);
    assert Cell(first.x, first.y - 1) in sorted + up;
    assert sorted + up <= FillFrom(sorted, 0, first.x, sorted[|sorted| - 1].x);
  }

  lemma NotInRegion(first: Cell, outline: seq<Cell>, c: Cell)
    requires c.x == first.x && c.y < first.y && forall d :: d in outline ==> d.x == first.x + 1
    ensures !InRegion([first] + outline, c)
  {}

  lemma RegionFound(outline: seq<Cell>, sorted: seq<Cell>, cells: seq<Cell>)
    requires Rearranged(outline, sorted) && SortedByX(sorted) && sorted != [] && sorted <= cells
    requires Filled(sorted, cells[|sorted|..], sorted[|sorted| - 1].x + 1)
    ensures IsFill(outline, cells)
  {
    assert cells[..|outline|] == sorted;
    var fill := cells[|sorted|..];
    assert cells == sorted + fill;
    FillsRegion(sorted, outline, fill, sorted[|sorted| - 1].x + 1);
    forall a, b | |outline| <= a < b < |cells| ensures cells[a] != cells[b] {
      assert fill[a - |outline|] != fill[b - |outline|];
    }
  }
}
