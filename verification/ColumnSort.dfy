// The measure that falls with every exchange of the back-stepping sort, and columns of a sorted list.
module ColumnSort {
  import opened Lines
  import opened Outline

  ghost predicate SortedByX(cells: seq<Cell>) {
    forall a, b :: 0 <= a <= b < |cells| ==> cells[a].x <= cells[b].x
  }

  function Sum(t: seq<int>): int {
    if t == [] then 0 else Sum(t[..|t| - 1]) + t[|t| - 1]
  }

  // The sum of all prefix sums: an element weighs more the further left it stands.
  function Weight(t: seq<int>): int {
    if t == [] then 0 else Weight(t[..|t| - 1]) + Sum(t)
  }

  function Swap<T>(s: seq<T>, i: nat): (r: seq<T>)
    requires i + 1 < |s|
    ensures |r| == |s| && r[i] == s[i + 1] && r[i + 1] == s[i]
    ensures forall k :: 0 <= k < |s| && k != i && k != i + 1 ==> r[k] == s[k]
  {
    s[i := s[i + 1]][i + 1 := s[i]]
  }

  lemma {:induction false} SumNotNegative(t: seq<int>)
    requires forall k :: 0 <= k < |t| ==> t[k] >= 0
    ensures Sum(t) >= 0 && Weight(t) >= 0
  {
    if t != [] { SumNotNegative(t[..|t| - 1]); }
  }

  lemma SumLast(u: seq<int>, a: int)
    ensures Sum(u + [a]) == Sum(u) + a && Weight(u + [a]) == Weight(u) + Sum(u) + a
  {
    assert (u + [a])[..|u|] == u;
  }

  /** Moving the greater of two neighbours to the right makes the weight fall. */
  lemma {:induction false} SwapLowers(t: seq<int>, i: nat)
    requires i + 1 < |t|
    ensures Sum(Swap(t, i)) == Sum(t) && Weight(Swap(t, i)) == Weight(t) - t[i] + t[i + 1]
  {
    var n := |t| - 1;
    if i + 1 < n {
      SwapLowers(t[..n], i);
      assert Swap(t, i) == Swap(t[..n], i) + [t[n]];
      assert t == t[..n] + [t[n]];
      SumLast(t[..n], t[n]);
      SumLast(Swap(t[..n], i), t[n]);
    } else {
      var u := t[..i];
      assert t == u + [t[i]] + [t[n]];
      assert Swap(t, i) == u + [t[n]] + [t[i]];
      SumLast(u, t[i]);
      SumLast(u + [t[i]], t[n]);
      SumLast(u, t[n]);
      SumLast(u + [t[n]], t[i]);
    }
  }

  lemma SwapSame<T>(s: seq<T>, i: nat)
    requires i + 1 < |s|
    ensures multiset(Swap(s, i)) == multiset(s)
  {
    assert s == s[..i] + [s[i]] + [s[i + 1]] + s[i + 2..];
    assert Swap(s, i) == s[..i] + [s[i + 1]] + [s[i]] + s[i + 2..];
  }

  lemma SwapXs(cells: seq<Cell>, i: nat)
    requires i + 1 < |cells|
    ensures Xs(Swap(cells, i)) == Swap(Xs(cells), i)
  {}

  // Sorted up to a place, and no column left of the map.
  ghost predicate Upto(cells: seq<Cell>, i: int) {
    && 0 <= i < |cells|
    && (forall a, b :: 0 <= a <= b <= i ==> cells[a].x <= cells[b].x)
    && (forall k :: 0 <= k < |cells| ==> cells[k].x >= 0)
  }

  lemma SwapIs<T>(s: seq<T>, i: nat)
    requires i + 1 < |s|
    ensures Swap(s, i) == s[i := s[i + 1]][i + 1 := s[i]]
  {}

  lemma UptoNext(cells: seq<Cell>, i: nat)
    requires Upto(cells, i) && i + 1 < |cells| && cells[i].x <= cells[i + 1].x
    ensures Upto(cells, i + 1)
  {}

  // The same entries in some order, as cells and as columns.
  ghost predicate Rearranged(a: seq<Cell>, b: seq<Cell>) {
    |a| == |b| && multiset(a) == multiset(b) && multiset(Xs(a)) == multiset(Xs(b))
  }

  /** An exchange keeps the entries, and the list is still sorted one place further left. */
  lemma Exchanged(first: seq<Cell>, cells: seq<Cell>, i: nat)
    requires Upto(cells, i) && i + 1 < |cells| && cells[i].x > cells[i + 1].x && Rearranged(first, cells)
    ensures var after := Swap(cells, i);
      && Upto(after, if i > 0 then i - 1 else i) && Rearranged(first, after)
      && 0 <= Weight(Xs(after)) < Weight(Xs(cells))
  {
    SwapLowers(Xs(cells), i);
    SwapXs(cells, i);
    SwapSame(cells, i);
    SwapSame(Xs(cells), i);
    SumNotNegative(Xs(Swap(cells, i)));
    hide Weight, Sum;
  }

  lemma SortStarts(cells: seq<Cell>)
    requires cells != [] && forall k :: 0 <= k < |cells| ==> cells[k].x >= 0
    ensures Upto(cells, 0) && Rearranged(cells, cells)
  {}

  lemma SortEnds(cells: seq<Cell>, i: int)
    requires Upto(cells, i) && i >= |cells| - 1
    ensures SortedByX(cells)
  {}

  // ------------------------------------------------------------ columns of a sorted list

  // Place i is where column x of a sorted list begins.
  ghost predicate Begins(cells: seq<Cell>, i: nat, x: int) {
    && i <= |cells|
    && (forall k :: 0 <= k < i ==> cells[k].x < x)
    && (forall k :: i <= k < |cells| ==> x <= cells[k].x)
  }

  /** A column with two entries begins with both of them. */
  lemma TwoAtBegin(cells: seq<Cell>, i: nat, x: int)
    requires SortedByX(cells) && Begins(cells, i, x) && InColumn(cells, x) >= 2
    ensures i + 1 < |cells| && cells[i].x == x && cells[i + 1].x == x
  {
    var a, b := TwoPlaces(Xs(cells), x);
    assert i <= a;
    assert cells[i].x <= cells[a].x;
    assert cells[i + 1].x <= cells[b].x;
  }

  // ------------------------------------------------------------ what the fill adds

  // Below the highest outline cell of the column, and not below the lowest.
  ghost predicate Under(outline: seq<Cell>, c: Cell) {
    exists lo, hi :: Spans(outline, lo, hi, c) && c.y < hi.y
  }

  /** The cells added so far: the ones under the outline in the columns left of x, each once. */
  ghost predicate Filled(outline: seq<Cell>, fill: seq<Cell>, x: int) {
    && (forall c :: c in fill <==> c.x < x && Under(outline, c))
    && (forall a, b :: 0 <= a < b < |fill| ==> fill[a] != fill[b])
  }

  // The lowest and the highest entry of a column.
  ghost predicate Extremes(outline: seq<Cell>, x: int, lo: Cell, hi: Cell) {
    && lo in outline && hi in outline && lo.x == x == hi.x
    && (forall c :: c in outline && c.x == x ==> lo.y <= c.y <= hi.y)
  }

  function Upward(lo: Cell, n: nat): (r: seq<Cell>)
    ensures |r| == n && forall k :: 0 <= k < n ==> r[k] == Cell(lo.x, lo.y + k)
  {
    seq(n, k requires 0 <= k => Cell(lo.x, lo.y + k))
  }

  lemma FilledNext(outline: seq<Cell>, fill: seq<Cell>, x: int, lo: Cell, hi: Cell)
    requires Filled(outline, fill, x) && Extremes(outline, x, lo, hi)
    ensures Filled(outline, fill + Upward(lo, hi.y - lo.y), x + 1)
  {
    var up := Upward(lo, hi.y - lo.y);
    forall c ensures c in fill + up <==> c.x < x + 1 && Under(outline, c) {
      if c.x == x { UnderIs(outline, c, x, lo, hi); }
      if c.x == x && lo.y <= c.y < hi.y { assert up[c.y - lo.y] == c; }
    }
  }

  lemma UnderIs(outline: seq<Cell>, c: Cell, x: int, lo: Cell, hi: Cell)
    requires Extremes(outline, x, lo, hi) && c.x == x
    ensures Under(outline, c) <==> lo.y <= c.y < hi.y
  {
    if lo.y <= c.y < hi.y { assert Spans(outline, lo, hi, c); }
  }

  // ------------------------------------------------------------ what the fill does to any list

  // The lowest and the highest entry among those already seen and the next ones of the column.
  function Widened(cells: seq<Cell>, i: nat, x: int, lo: Cell, hi: Cell): (r: (nat, Cell, Cell))
    requires i <= |cells|
    ensures i <= r.0 <= |cells| && r.1.y <= lo.y && hi.y <= r.2.y
    decreases |cells| - i
  {
    if i == |cells| || cells[i].x != x then (i, lo, hi)
    else if cells[i].y < lo.y then Widened(cells, i + 1, x, cells[i], hi)
    else if cells[i].y > hi.y then Widened(cells, i + 1, x, lo, cells[i])
    else Widened(cells, i + 1, x, lo, hi)
  }

  // What is taken for a column: two entries whatever they are, and those behind them that lie in
  // it; where the next column is looked for, the lowest and the highest of them.
  function ColumnAt(cells: seq<Cell>, i: nat, x: int): (r: (nat, Cell, Cell))
    requires i + 1 < |cells|
    ensures i + 2 <= r.0 <= |cells| && r.1.y <= r.2.y
    ensures r.1.y <= cells[i + 1].y && cells[i].y <= r.2.y
  {
    if cells[i].y < cells[i + 1].y then Widened(cells, i + 2, x, cells[i], cells[i + 1])
    else Widened(cells, i + 2, x, cells[i + 1], cells[i])
  }

  /** The list when all columns from x on have been filled, looking for the first of them at place i. */
  function FillFrom(cells: seq<Cell>, i: nat, x: int, maxX: int): (r: seq<Cell>)
    ensures cells <= r
    decreases maxX + 1 - x
  {
    if x > maxX || i + 1 >= |cells| then cells
    else
      var (next, lo, hi) := ColumnAt(cells, i, x);
      FillFrom(cells + Upward(Cell(x, lo.y), hi.y - lo.y), next, x + 1, maxX)
  }

  lemma FillFromStep(cells: seq<Cell>, i: nat, x: int, maxX: int)
    requires x <= maxX && i + 1 < |cells|
    ensures var (next, lo, hi) := ColumnAt(cells, i, x);
      FillFrom(cells, i, x, maxX) == FillFrom(cells + Upward(Cell(x, lo.y), hi.y - lo.y), next, x + 1, maxX)
  {}

  lemma FillFromEnds(cells: seq<Cell>, i: nat, x: int, maxX: int)
    requires x > maxX || i + 1 >= |cells|
    ensures FillFrom(cells, i, x, maxX) == cells
  {}

  // Part of a column and its extremes so far.
  ghost predicate Seen(outline: seq<Cell>, i: nat, n: nat, x: int, lo: Cell, hi: Cell) {
    && i <= n <= |outline| && lo in outline && hi in outline && lo.x == x == hi.x && lo.y <= hi.y
    && (forall k :: i <= k < n ==> outline[k].x == x && lo.y <= outline[k].y <= hi.y)
  }

  lemma {:induction false} WidenedSees(outline: seq<Cell>, cells: seq<Cell>, i: nat, n: nat, x: int, lo: Cell, hi: Cell)
    requires outline <= cells && Seen(outline, i, n, x, lo, hi)
    requires forall k :: |outline| <= k < |cells| ==> cells[k].x < x
    ensures var (next, lo', hi') := Widened(cells, n, x, lo, hi);
      Seen(outline, i, next, x, lo', hi') && (next < |outline| ==> outline[next].x != x)
    decreases |outline| - n
  {
    if n < |outline| && outline[n].x == x {
      if outline[n].y < lo.y {
        WidenedSees(outline, cells, i, n + 1, x, outline[n], hi);
      } else if outline[n].y > hi.y {
        WidenedSees(outline, cells, i, n + 1, x, lo, outline[n]);
      } else {
        WidenedSees(outline, cells, i, n + 1, x, lo, hi);
      }
    }
  }

  lemma SeenAll(outline: seq<Cell>, i: nat, n: nat, x: int, lo: Cell, hi: Cell)
    requires SortedByX(outline) && Begins(outline, i, x) && Seen(outline, i, n, x, lo, hi)
    requires n < |outline| ==> outline[n].x != x
    ensures Extremes(outline, x, lo, hi) && Begins(outline, n, x + 1)
  {}

  /** In a sorted list a column with two entries is taken for what it is. */
  lemma ColumnFound(outline: seq<Cell>, cells: seq<Cell>, i: nat, x: int)
    requires outline <= cells && SortedByX(outline) && Begins(outline, i, x) && InColumn(outline, x) >= 2
    requires forall k :: |outline| <= k < |cells| ==> cells[k].x < x
    ensures i + 1 < |outline|
    ensures var (next, lo, hi) := ColumnAt(cells, i, x);
      Extremes(outline, x, lo, hi) && Begins(outline, next, x + 1)
  {
    TwoAtBegin(outline, i, x);
    var lo, hi := if cells[i].y < cells[i + 1].y then cells[i] else cells[i + 1],
                  if cells[i].y < cells[i + 1].y then cells[i + 1] else cells[i];
    assert Seen(outline, i, i + 2, x, lo, hi);
    WidenedSees(outline, cells, i, i + 2, x, lo, hi);
    var (next, lo', hi') := ColumnAt(cells, i, x);
    SeenAll(outline, i, next, x, lo', hi');
  }

  lemma FilledLeft(outline: seq<Cell>, cells: seq<Cell>, x: int)
    requires outline <= cells && Filled(outline, cells[|outline|..], x)
    ensures forall k :: |outline| <= k < |cells| ==> cells[k].x < x
  {
    forall k | |outline| <= k < |cells| ensures cells[k].x < x {
      assert cells[|outline|..][k - |outline|] in cells[|outline|..];
    }
  }

  /** Behind a sorted list that has two entries in each column from x on, just its region is filled. */
  lemma {:induction false} FillFromFills(outline: seq<Cell>, cells: seq<Cell>, i: nat, x: int, maxX: int)
    requires outline <= cells && SortedByX(outline) && Begins(outline, i, x) && x <= maxX + 1
    requires forall v :: x <= v <= maxX ==> InColumn(outline, v) >= 2
    requires Filled(outline, cells[|outline|..], x)
    ensures var r := FillFrom(cells, i, x, maxX);
      outline <= r && Filled(outline, r[|outline|..], maxX + 1)
    decreases maxX + 1 - x
  {
    hide SortedByX, Begins, Filled, Extremes, InColumn, ColumnAt;
    if x <= maxX {
      FilledLeft(outline, cells, x);
      ColumnFound(outline, cells, i, x);
      var (next, lo, hi) := ColumnAt(cells, i, x);
      ExtremesOrder(outline, x, lo, hi);
      assert Cell(x, lo.y) == lo;
      var up := Upward(lo, hi.y - lo.y);
      FilledNext(outline, cells[|outline|..], x, lo, hi);
      assert (cells + up)[|outline|..] == cells[|outline|..] + up;
      FillFromFills(outline, cells + up, next, x + 1, maxX);
    }
  }

  lemma ExtremesOrder(outline: seq<Cell>, x: int, lo: Cell, hi: Cell)
    requires Extremes(outline, x, lo, hi)
    ensures lo.x == x && lo.y <= hi.y
  {}

  /** Outline and fill together are the region. */
  lemma FillsRegion(sorted: seq<Cell>, outline: seq<Cell>, fill: seq<Cell>, x: int)
    requires multiset(sorted) == multiset(outline) && Filled(sorted, fill, x) && forall c :: c in sorted ==> c.x < x
    ensures forall c :: c in sorted + fill <==> InRegion(outline, c)
  {
    SameMembers(sorted, outline);
    forall c ensures c in sorted + fill <==> InRegion(outline, c) {
      if c in sorted { assert Spans(outline, c, c, c); }
      if c in fill {
        var lo, hi :| Spans(sorted, lo, hi, c) && c.y < hi.y;
        assert Spans(outline, lo, hi, c);
      }
      if InRegion(outline, c) {
        var lo, hi :| Spans(outline, lo, hi, c);
        assert Spans(sorted, lo, hi, c);
        if c.y == hi.y { assert c == hi; }
      }
    }
  }

  lemma SameMembers<T>(s: seq<T>, t: seq<T>)
    requires multiset(s) == multiset(t)
    ensures forall c :: c in s <==> c in t
  {
    forall c ensures c in s <==> c in t {
      assert c in s <==> c in multiset(s);
      assert c in t <==> c in multiset(t);
    }
  }
}
