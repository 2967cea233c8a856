// Two ways to walk along a line: flat offsets into the cost map, and a stand-alone iterator.
module Raster {
  import opened Grid
  import opened Lines

  // ------------------------------------------------------------ the iterator

  class FastLineIterator {
    const a: Cell
    const b: Cell
    const xinc1: int
    const xinc2: int
    const yinc1: int
    const yinc2: int
    const den: int
    const numadd: int
    const numpixels: int
    var x: int
    var y: int
    var num: int
    var curpixel: int

    /** The set-up, and the position as long as the walk is not over. */
    ghost predicate Valid()
      reads this
    {
      && numpixels == Length(a, b) && den == 2 * Length(a, b) && numadd == 2 * Rise(a, b) && 0 <= curpixel
      && xinc1 == (if Flat(a, b) then 0 else Sign(b.x - a.x)) && xinc2 == (if Flat(a, b) then Sign(b.x - a.x) else 0)
      && yinc1 == (if Flat(a, b) then Sign(b.y - a.y) else 0) && yinc2 == (if Flat(a, b) then 0 else Sign(b.y - a.y))
      && (curpixel <= numpixels ==>
            num == Excess(Length(a, b), Rise(a, b), curpixel) && Cell(x, y) == LineCell(a, b, curpixel))
    }

    constructor (x0: int, y0: int, x1: int, y1: int)
      ensures Valid() && a == Cell(x0, y0) && b == Cell(x1, y1) && curpixel == 0
    {
      a, b := Cell(x0, y0), Cell(x1, y1);
      x, y := x0, y0;
      var deltax, deltay := Abs(x1 - x0), Abs(y1 - y0);
      curpixel := 0;
      if deltax >= deltay {
        xinc1, xinc2 := 0, Sign(x1 - x0);
        yinc1, yinc2 := Sign(y1 - y0), 0;
        den, num, numadd, numpixels := 2 * deltax, deltax, 2 * deltay, deltax;
      } else {
        xinc1, xinc2 := Sign(x1 - x0), 0;
        yinc1, yinc2 := 0, Sign(y1 - y0);
        den, num, numadd, numpixels := 2 * deltay, deltay, 2 * deltax, deltay;
      }
      new;
      hide Nearest, Mul;
      NearestEnds(Length(a, b), Rise(a, b));
      MulNext(0, Rise(a, b));
      MulNext(0, Length(a, b));
    }

    predicate IsValid()
      reads this
    {
      curpixel <= numpixels
    }

    method Advance()
      requires Valid() && IsValid()
      modifies this
      ensures Valid() && curpixel == old(curpixel) + 1
    {
      ghost var k: nat := curpixel;
      hide Excess, LineCell;
      if 0 < Length(a, b) {
        NextCell(a, b, k);
      }
      num := num + numadd;
      if num >= den {
        num := num - den;
        x := x + xinc1;
        y := y + yinc1;
      }
      x := x + xinc2;
      y := y + yinc2;
      curpixel := curpixel + 1;
    }
  }

  // The error of the iterator: how far, in units of half a step, the ideal line is past the lower edge of the cell.
  function Excess(da: nat, db: nat, k: nat): int {
    da + 2 * Mul(k, db) - 2 * Mul(Nearest(da, db, k), da)
  }

  // One step of the iterator, on values.
  lemma NextCell(a: Cell, b: Cell, k: nat)
    requires 0 < Length(a, b)
    ensures var num := Excess(Length(a, b), Rise(a, b), k) + 2 * Rise(a, b);
      var side := if num >= 2 * Length(a, b) then 1 else 0;
      && Excess(Length(a, b), Rise(a, b), k + 1) == num - 2 * Mul(side, Length(a, b))
      && LineCell(a, b, k + 1) ==
        var c := LineCell(a, b, k);
        if Flat(a, b) then Cell(c.x + Sign(b.x - a.x), c.y + (if side == 1 then Sign(b.y - a.y) else 0))
        else Cell(c.x + (if side == 1 then Sign(b.x - a.x) else 0), c.y + Sign(b.y - a.y))
  {
    hide Nearest, Mul;
    NextNearest(Length(a, b), Rise(a, b), k);
    MulNext(0, Length(a, b));
  }

  // When the error passes its threshold, and what it is afterwards.
  lemma NextNearest(da: nat, db: nat, k: nat)
    requires 0 < da && db <= da
    ensures var n, n' := Nearest(da, db, k), Nearest(da, db, k + 1);
      && Mul(k + 1, db) == Mul(k, db) + db
      && n' == (if da + 2 * Mul(k, db) - 2 * Mul(n, da) + 2 * db >= 2 * da then n + 1 else n)
      && Mul(n + 1, da) == Mul(n, da) + da
  {
    NearestIs(da, db, k);
    hide Nearest, Mul;
    var n := Nearest(da, db, k);
    MulNext(k, db);
    MulNext(n, da);
    if da + 2 * Mul(k, db) - 2 * Mul(n, da) + 2 * db >= 2 * da {
      NearestUnique(da, db, k + 1, n + 1);
    } else {
      NearestUnique(da, db, k + 1, n);
    }
  }

  /** The walk a caller of the iterator makes visits the cells of the line in their order, and all of them. */
  method Iterate(a: Cell, b: Cell) returns (cells: seq<Cell>)
    ensures cells == Line(a, b)
  {
    var it := new FastLineIterator(a.x, a.y, b.x, b.y);
    cells := [];
    hide Nearest, Mul, LineCell;
    while it.IsValid()
      invariant it.Valid() && fresh(it) && it.a == a && it.b == b && it.curpixel == |cells| <= Length(a, b) + 1
      invariant forall k :: 0 <= k < |cells| ==> cells[k] == LineCell(a, b, k)
      decreases it.numpixels + 1 - it.curpixel
    {
      cells := cells + [Cell(it.x, it.y)];
      it.Advance();
    }
  }

  // ------------------------------------------------------------ the cost map's walk

  // The offset after k steps of the walk.
  function OffsetAt(da: nat, db: nat, offset: int, offsetA: int, offsetB: int, k: nat): int {
    offset + Mul(k, offsetA) + Mul(Nearest(da, db, k), offsetB)
  }

  /** The walk with half the length, rounded down, as its first error. It can be cut short. */
  method Bresenham(absDa: nat, absDb: nat, first: int, offsetA: int, offsetB: int, offset0: int, maxLength: nat)
    returns (visited: seq<int>)
    requires absDb <= absDa && first == absDa / 2
    ensures |visited| == (if maxLength < absDa then maxLength else absDa) + 1
    ensures forall k :: 0 <= k < |visited| ==> visited[k] == OffsetAt(absDa, absDb, offset0, offsetA, offsetB, k)
  {
    var end := if maxLength < absDa then maxLength else absDa;
    var offset, errorB := offset0, first;
    visited := [];
    OffsetStarts(absDa, absDb, offset0, offsetA, offsetB);
    hide Nearest, Mul;
    for i := 0 to end
      invariant |visited| == i
      invariant forall k :: 0 <= k < i ==> visited[k] == OffsetAt(absDa, absDb, offset0, offsetA, offsetB, k)
      invariant offset == OffsetAt(absDa, absDb, offset0, offsetA, offsetB, i)
      invariant errorB == absDa / 2 + Mul(i, absDb) - Mul(Nearest(absDa, absDb, i), absDa)
    {
      NextNearest(absDa, absDb, i);
      NextNotNegative(absDa, absDb, i);
      MulNext(i, offsetA);
      MulNext(Nearest(absDa, absDb, i), offsetB);
      visited := visited + [offset];
      offset := offset + offsetA;
      errorB := errorB + absDb;
      if errorB >= absDa {
        offset := offset + offsetB;
        errorB := errorB - absDa;
      }
    }
    visited := visited + [offset];
  }

  lemma OffsetStarts(da: nat, db: nat, offset: int, offsetA: int, offsetB: int)
    requires db <= da
    ensures OffsetAt(da, db, offset, offsetA, offsetB, 0) == offset
    ensures Mul(0, db) == 0 && Mul(Nearest(da, db, 0), da) == 0
  {
    NearestEnds(da, db);
    hide Nearest;
  }

  // The error the walk compares as an unsigned number is never negative.
  lemma NextNotNegative(da: nat, db: nat, k: nat)
    requires 0 < da && db <= da
    ensures 0 <= da / 2 + Mul(k, db) - Mul(Nearest(da, db, k), da) < da
  {
    NearestIs(da, db, k);
    hide Nearest, Mul;
  }

  function GetIndex(m: Grid, c: Cell): int {
    Mul(c.y, m.width) + c.x
  }

  function Index2Cells(m: Grid, i: int): Cell
    requires m.width > 0
  {
    var y := i / m.width;
    Cell(i - y * m.width, y)
  }

  predicate OnMap(m: Grid, c: Cell) {
    0 <= c.x < m.width && 0 <= c.y < m.height
  }

  /** A cell on the map is an index inside it and the other way round. */
  lemma IndexRoundTrip(m: Grid, c: Cell)
    requires OnMap(m, c)
    ensures Inside(m, GetIndex(m, c)) && Index2Cells(m, GetIndex(m, c)) == c
  {
    At(m, GetIndex(m, c), c.x, c.y);
    DivIsMul(GetIndex(m, c), m.width);
    assert Mul(c.y, m.width) == c.y * m.width;
  }

  lemma IndexIsUnique(m: Grid, i: int)
    requires Inside(m, i)
    ensures m.width > 0 && OnMap(m, Index2Cells(m, i)) && GetIndex(m, Index2Cells(m, i)) == i
  {
    RowBounds(m, i);
    DivIsMul(i, m.width);
    assert Mul(i / m.width, m.width) == i / m.width * m.width;
  }

  lemma MulSign(n: int, s: int, w: int)
    requires s == 1 || s == -1
    ensures Mul(n, s * w) == Mul(s * n, w) && Mul(n, s) == s * n
  {}

  lemma MulAdds(a: int, b: int, w: int)
    ensures Mul(a + b, w) == Mul(a, w) + Mul(b, w)
  {}

  // The walk's offsets are the indices of the line's cells.
  lemma OffsetsAreLine(m: Grid, a: Cell, b: Cell, k: nat)
    requires k <= Length(a, b)
    ensures var sx, sy := Sign(b.x - a.x), Sign(b.y - a.y) * m.width;
      GetIndex(m, LineCell(a, b, k)) ==
        if Flat(a, b) then OffsetAt(Length(a, b), Rise(a, b), GetIndex(m, a), sx, sy, k)
        else OffsetAt(Length(a, b), Rise(a, b), GetIndex(m, a), sy, sx, k)
  {
    hide Nearest, Mul;
    var n := Nearest(Length(a, b), Rise(a, b), k);
    var sx, sy := Sign(b.x - a.x), Sign(b.y - a.y);
    var dy := if Flat(a, b) then n else k;
    MulSign(dy, sy, m.width);
    MulSign(if Flat(a, b) then k else n, sx, m.width);
    MulAdds(a.y, sy * dy, m.width);
  }

  /**
   * The line without a length cap: the indices of its cells, in order, never off the map and never
   * round a row's end.
   */
  method RaytraceLine(m: Grid, a: Cell, b: Cell) returns (visited: seq<int>)
    requires OnMap(m, a) && OnMap(m, b)
    ensures |visited| == |Line(a, b)|
    ensures forall k :: 0 <= k < |visited| ==> Inside(m, visited[k]) && Index2Cells(m, visited[k]) == Line(a, b)[k]
  {
    var dx, dy := b.x - a.x, b.y - a.y;
    var absDx, absDy := Abs(dx), Abs(dy);
    var offsetDx := Sign(dx);
    var offsetDy := Sign(dy) * m.width;
    var offset := a.y * m.width + a.x;
    if absDx >= absDy {
      var errorY := absDx / 2;
      visited := Bresenham(absDx, absDy, errorY, offsetDx, offsetDy, offset, absDx);
    } else {
      var errorX := absDy / 2;
      visited := Bresenham(absDy, absDx, errorX, offsetDy, offsetDx, offset, absDy);
    }
    assert offset == GetIndex(m, a);
    hide Nearest, Mul, OffsetAt, LineCell, Inside, Index2Cells;
    forall k | 0 <= k < |visited|
      ensures Inside(m, visited[k]) && Index2Cells(m, visited[k]) == Line(a, b)[k]
    {
      OffsetsAreLine(m, a, b, k);
      LineInBox(a, b, k);
      IndexRoundTrip(m, LineCell(a, b, k));
    }
  }

  /** The two walks visit the same cells in the same order. */
  method SameCells(m: Grid, a: Cell, b: Cell) returns (flat: seq<int>, cells: seq<Cell>)
    requires OnMap(m, a) && OnMap(m, b)
    ensures |flat| == |cells| && forall k :: 0 <= k < |flat| ==>
      Inside(m, flat[k]) && Index2Cells(m, flat[k]) == cells[k]
    ensures |cells| == Length(a, b) + 1 && cells[0] == a && cells[|cells| - 1] == b
  {
    flat := RaytraceLine(m, a, b);
    cells := Iterate(a, b);
    LineEnds(a, b);
  }
}
