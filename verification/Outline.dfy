// The outline of a polygon on the grid, column by column, and the region it bounds.
module Outline {
  import opened Lines

  // Corners one after another, joined by lines.
  function Edges(p: seq<Cell>): seq<Cell> {
    if |p| < 2 then [] else Edges(p[..|p| - 1]) + Line(p[|p| - 2], p[|p| - 1])
  }

  function Closed(polygon: seq<Cell>): seq<Cell>
    requires polygon != []
  {
    polygon + [polygon[0]]
  }

  /** The cells of all sides, the last side going back to the first corner. */
  function OutlineOf(polygon: seq<Cell>): seq<Cell>
    requires polygon != []
  {
    Edges(Closed(polygon))
  }

  /** The cells between the lowest and the highest outline cell of their column. */
  ghost predicate InRegion(outline: seq<Cell>, c: Cell) {
    exists lo, hi :: Spans(outline, lo, hi, c)
  }

  ghost predicate Spans(outline: seq<Cell>, lo: Cell, hi: Cell, c: Cell) {
    lo in outline && hi in outline && lo.x == c.x == hi.x && lo.y <= c.y <= hi.y
  }

  // ------------------------------------------------------------ columns

  function Xs(cells: seq<Cell>): (r: seq<int>)
    ensures |r| == |cells| && forall k :: 0 <= k < |r| ==> r[k] == cells[k].x
  {
    seq(|cells|, k requires 0 <= k < |cells| => cells[k].x)
  }

  // How many cells a column holds.
  function InColumn(cells: seq<Cell>, x: int): nat {
    multiset(Xs(cells))[x]
  }

  lemma XsAdd(a: seq<Cell>, b: seq<Cell>, x: int)
    ensures InColumn(a + b, x) == InColumn(a, x) + InColumn(b, x)
  {
    assert Xs(a + b) == Xs(a) + Xs(b);
  }

  lemma OneInColumn(cells: seq<Cell>, k: nat, x: int)
    requires k < |cells| && cells[k].x == x
    ensures InColumn(cells, x) >= 1
  {
    assert Xs(cells)[k] == x;
  }

  lemma {:induction false} TwoPlaces(t: seq<int>, x: int) returns (i: nat, j: nat)
    requires multiset(t)[x] >= 2
    ensures i < j < |t| && t[i] == x == t[j]
  {
    var n := |t| - 1;
    assert t == t[..n] + [t[n]];
    if t[n] == x {
      assert x in multiset(t[..n]);
      i :| 0 <= i < n && t[..n][i] == x;
      j := n;
    } else {
      i, j := TwoPlaces(t[..n], x);
    }
  }

  // ------------------------------------------------------------ every column is crossed twice

  // The side from corner k reaches over column x.
  predicate Crosses(p: seq<Cell>, k: int, x: int) {
    0 <= k < |p| - 1 && Between(p[k].x, x, p[k + 1].x)
  }

  lemma SideReaches(a: Cell, b: Cell, x: int)
    requires Between(a.x, x, b.x)
    ensures InColumn(Line(a, b), x) >= 1
  {
    hide InColumn, LineCell;
    var i := LineCrosses(a, b, x);
    OneInColumn(Line(a, b), i, x);
  }

  lemma EdgesIn(p: seq<Cell>, x: int)
    requires |p| >= 2
    ensures InColumn(Edges(p), x) == InColumn(Edges(p[..|p| - 1]), x) + InColumn(Line(p[|p| - 2], p[|p| - 1]), x)
  {
    hide InColumn;
    XsAdd(Edges(p[..|p| - 1]), Line(p[|p| - 2], p[|p| - 1]), x);
  }

  lemma {:induction false} OneSide(p: seq<Cell>, k: nat, x: int)
    requires Crosses(p, k, x)
    ensures InColumn(Edges(p), x) >= 1
  {
    hide InColumn, Edges, Line;
    var n := |p| - 1;
    EdgesIn(p, x);
    if k == n - 1 {
      SideReaches(p[n - 1], p[n], x);
    } else {
      OneSide(p[..n], k, x);
    }
  }

  lemma {:induction false} TwoSides(p: seq<Cell>, j: nat, k: nat, x: int)
    requires j < k && Crosses(p, j, x) && Crosses(p, k, x)
    ensures InColumn(Edges(p), x) >= 2
  {
    hide InColumn, Edges, Line;
    var n := |p| - 1;
    EdgesIn(p, x);
    if k == n - 1 {
      OneSide(p[..n], j, x);
      SideReaches(p[n - 1], p[n], x);
    } else {
      TwoSides(p[..n], j, k, x);
    }
  }

  // From one side of a column to the other, some side of the polygon crosses it.
  lemma {:induction false} Crossing(p: seq<Cell>, a: nat, b: nat, x: int) returns (k: nat)
    requires a < b < |p| && Between(p[a].x, x, p[b].x)
    ensures a <= k < b && Crosses(p, k, x)
    decreases b
  {
    if Between(p[b - 1].x, x, p[b].x) {
      k := b - 1;
    } else {
      k := Crossing(p, a, b - 1, x);
    }
  }

  // A way that ends where it began crosses each column it reaches at least twice.
  lemma TwoCrossings(p: seq<Cell>, i: nat, j: nat, x: int) returns (k: nat, l: nat)
    requires |p| >= 3 && p[0] == p[|p| - 1] && i < |p| && j < |p| && p[i].x <= x <= p[j].x
    ensures k < l && Crosses(p, k, x) && Crosses(p, l, x)
  {
    var n := |p| - 1;
    if p[i].x == x {
      k, l := AtCorner(p, i, x);
    } else if p[j].x == x {
      k, l := AtCorner(p, j, x);
    } else {
      var lo, hi := if i < j then i else j, if i < j then j else i;
      k := Crossing(p, lo, hi, x);
      if lo > 0 && Between(p[0].x, x, p[lo].x) {
        l := k;
        k := Crossing(p, 0, lo, x);
      } else {
        l := Crossing(p, hi, n, x);
      }
    }
  }

  lemma AtCorner(p: seq<Cell>, i: nat, x: int) returns (k: nat, l: nat)
    requires |p| >= 3 && p[0] == p[|p| - 1] && i < |p| && p[i].x == x
    ensures k < l && Crosses(p, k, x) && Crosses(p, l, x)
  {
    var n := |p| - 1;
    if i == 0 || i == n {
      k, l := 0, n - 1;
    } else {
      k, l := i - 1, i;
    }
  }

  // Every outline cell lies between two corners, both ways.
  lemma {:induction false} CornersAround(p: seq<Cell>, c: Cell) returns (k: nat)
    requires c in Edges(p)
    ensures k + 1 < |p| && Between(p[k].x, c.x, p[k + 1].x) && Between(p[k].y, c.y, p[k + 1].y)
  {
    var n := |p| - 1;
    var front, last := Edges(p[..n]), Line(p[n - 1], p[n]);
    if c in last {
      var i: nat :| i < |last| && last[i] == c;
      LineInBox(p[n - 1], p[n], i);
      k := n - 1;
    } else {
      k := CornersAround(p[..n], c);
    }
  }

  /** In every column from the outline's first to its last there are at least two entries. */
  lemma TwoPerColumn(polygon: seq<Cell>, a: Cell, b: Cell, x: int)
    requires |polygon| >= 2 && a in OutlineOf(polygon) && b in OutlineOf(polygon) && a.x <= x <= b.x
    ensures InColumn(OutlineOf(polygon), x) >= 2
  {
    var p := Closed(polygon);
    var i := CornersAround(p, a);
    var j := CornersAround(p, b);
    var i' := if p[i].x <= x then i else i + 1;
    var j' := if x <= p[j].x then j else j + 1;
    var k, l := TwoCrossings(p, i', j', x);
    TwoSides(p, k, l, x);
  }

  /** The corners are on the outline. */
  lemma {:induction false} CornersIn(p: seq<Cell>, k: nat)
    requires |p| >= 2 && k < |p|
    ensures p[k] in Edges(p)
  {
    hide LineCell;
    var n := |p| - 1;
    var front, last := Edges(p[..n]), Line(p[n - 1], p[n]);
    if k >= n - 1 {
      LineEnds(p[n - 1], p[n]);
      var i := if k == n then |last| - 1 else 0;
      assert (front + last)[|front| + i] == p[k];
    } else {
      CornersIn(p[..n], k);
      assert p[k] in front;
    }
  }
}
