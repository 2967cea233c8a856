// Cells of a rectangular grid numbered row by row, their neighbours, and paths between them.
module Grid {
  import opened Options

  datatype Grid = Grid(width: nat, height: nat)

  // A product kept as one term.
  function Mul(a: int, b: int): int {
    a * b
  }

  function Size(m: Grid): nat {
    m.width * m.height
  }

  predicate Inside(m: Grid, i: int) {
    0 <= i < Size(m)
  }

  function X(m: Grid, i: int): int
    requires Inside(m, i)
  {
    i % m.width
  }

  function Y(m: Grid, i: int): int
    requires Inside(m, i)
  {
    i / m.width
  }

  /** A cell next to another, straight or diagonally, without leaving its row at the border. */
  predicate Near(m: Grid, a: int, b: int) {
    Inside(m, a) && Inside(m, b) && a != b && -1 <= X(m, a) - X(m, b) <= 1 && -1 <= Y(m, a) - Y(m, b) <= 1
  }

  predicate Diagonal(m: Grid, a: int, b: int)
    requires Inside(m, a) && Inside(m, b)
  {
    X(m, a) != X(m, b) && Y(m, a) != Y(m, b)
  }

  // ------------------------------------------------------------ rows and columns

  lemma MulNext(a: int, b: int)
    ensures Mul(a + 1, b) == Mul(a, b) + b && Mul(a - 1, b) == Mul(a, b) - b
    ensures Mul(0, b) == 0 && Mul(1, b) == b && Mul(-1, b) == -b
  {}

  lemma {:induction false} MulGrows(a: int, c: int, b: nat)
    requires a <= c
    ensures Mul(a, b) <= Mul(c, b)
    decreases c - a
  {
    hide Mul;
    if a < c {
      MulGrows(a, c - 1, b);
      MulNext(c, b);
    }
  }

  lemma DivIsMul(i: int, w: int)
    requires w > 0
    ensures i == Mul(i / w, w) + i % w && 0 <= i % w < w
  {}

  lemma Unique(w: nat, x: int, y: int, i: int)
    requires w > 0 && 0 <= x < w && i == Mul(y, w) + x
    ensures i / w == y && i % w == x
  {
    DivIsMul(i, w);
    UniqueRow(w, x, y, i % w, i / w);
  }

  lemma UniqueRow(w: nat, x: int, y: int, r: int, q: int)
    requires 0 <= x < w && 0 <= r < w && Mul(y, w) + x == Mul(q, w) + r
    ensures q == y && r == x
  {
    hide Mul;
    MulNext(y, w);
    MulNext(q, w);
    if q > y { MulGrows(y + 1, q, w); }
    if q < y { MulGrows(q + 1, y, w); }
  }

  // A row and a column are an index and the other way round.
  lemma RowBounds(m: Grid, i: int)
    requires Inside(m, i)
    ensures m.width > 0 && 0 <= X(m, i) < m.width && 0 <= Y(m, i) < m.height && i == Mul(Y(m, i), m.width) + X(m, i)
  {
    DivIsMul(i, m.width);
    RowInside(m, i, X(m, i), Y(m, i));
  }

  lemma SizeIsMul(m: Grid)
    ensures Size(m) == Mul(m.height, m.width)
  {}

  lemma RowInside(m: Grid, i: int, x: int, y: int)
    requires 0 <= x < m.width && i == Mul(y, m.width) + x
    ensures Inside(m, i) <==> 0 <= y < m.height
  {
    hide Mul, Size;
    SizeIsMul(m);
    MulNext(y, m.width);
    MulNext(0, m.width);
    if y < 0 { MulGrows(y, -1, m.width); } else { MulGrows(0, y, m.width); }
    if y < m.height { MulGrows(y + 1, m.height, m.width); } else { MulGrows(m.height, y, m.width); }
  }

  lemma At(m: Grid, i: int, x: int, y: int)
    requires 0 <= x < m.width && 0 <= y < m.height && i == Mul(y, m.width) + x
    ensures Inside(m, i) && X(m, i) == x && Y(m, i) == y
  {
    RowInside(m, i, x, y);
    Unique(m.width, x, y, i);
  }

  // The cell so many columns and rows away, if there is one.
  predicate HasShift(m: Grid, i: int, dx: int, dy: int)
    requires Inside(m, i)
  {
    0 <= X(m, i) + dx < m.width && 0 <= Y(m, i) + dy < m.height
  }

  function Shift(m: Grid, i: int, dx: int, dy: int): int {
    i + Mul(dy, m.width) + dx
  }

  lemma ShiftIs(m: Grid, i: int, dx: int)
    ensures Shift(m, i, dx, 0) == i + dx && Shift(m, i, dx, 1) == i + m.width + dx
      && Shift(m, i, dx, -1) == i - m.width + dx
  {}

  lemma ShiftInside(m: Grid, i: int, dx: int, dy: int)
    requires Inside(m, i) && HasShift(m, i, dx, dy) && -1 <= dy <= 1
    ensures var j := Shift(m, i, dx, dy);
      Inside(m, j) && X(m, j) == X(m, i) + dx && Y(m, j) == Y(m, i) + dy
  {
    hide Mul, X, Y, Size;
    RowBounds(m, i);
    MulNext(Y(m, i), m.width);
    MulNext(0, m.width);
    At(m, Shift(m, i, dx, dy), X(m, i) + dx, Y(m, i) + dy);
  }

  predicate OneStep(m: Grid, i: int, j: int, dx: int, dy: int)
    requires Inside(m, i)
  {
    -1 <= dx <= 1 && -1 <= dy <= 1 && (dx != 0 || dy != 0) && HasShift(m, i, dx, dy) && j == Shift(m, i, dx, dy)
  }

  /** A neighbour is one step away in each direction at most, and every such cell is one. */
  lemma NearIsShift(m: Grid, i: int, j: int)
    requires Inside(m, i)
    ensures Near(m, i, j) <==> exists dx, dy :: OneStep(m, i, j, dx, dy)
  {
    hide Mul, X, Y, Size;
    if Near(m, i, j) {
      RowBounds(m, i);
      RowBounds(m, j);
      MulNext(Y(m, i), m.width);
      MulNext(0, m.width);
      assert OneStep(m, i, j, X(m, j) - X(m, i), Y(m, j) - Y(m, i));
    }
    forall dx, dy | OneStep(m, i, j, dx, dy) ensures Near(m, i, j) {
      ShiftInside(m, i, dx, dy);
    }
  }

  // What the index arithmetic of the neighbour search finds out about rows and columns.
  lemma BorderTests(m: Grid, i: int)
    requires Inside(m, i)
    ensures m.width > 0
    ensures i % m.width != 0 <==> X(m, i) > 0
    ensures (i - m.width) % m.width == (i + m.width) % m.width == i % m.width
    ensures (i + 1) % m.width != 0 <==> X(m, i) + 1 < m.width
    ensures (i + m.width + 1) % m.width == (i - m.width + 1) % m.width == (i + 1) % m.width
  {
    RowBounds(m, i);
    var w, x, y := m.width, X(m, i), Y(m, i);
    MulNext(y, w);
    MulNext(y + 1, w);
    var x1, y1 := if x + 1 < w then x + 1 else 0, if x + 1 < w then y else y + 1;
    hide Mul, X, Y, Size;
    Unique(w, x, y, i);
    Unique(w, x, y - 1, i - w);
    Unique(w, x, y + 1, i + w);
    MulNext(y1, w);
    Unique(w, x1, y1, i + 1);
    Unique(w, x1, y1 + 1, i + w + 1);
    Unique(w, x1, y1 - 1, i - w + 1);
  }

  lemma RowTests(m: Grid, i: int)
    requires Inside(m, i)
    ensures i - m.width >= 0 <==> Y(m, i) > 0
    ensures i + m.width < Size(m) <==> Y(m, i) + 1 < m.height
  {
    hide Mul, X, Y, Size;
    RowBounds(m, i);
    MulNext(Y(m, i), m.width);
    RowInside(m, i - m.width, X(m, i), Y(m, i) - 1);
    RowInside(m, i + m.width, X(m, i), Y(m, i) + 1);
  }

  // ------------------------------------------------------------ costs and paths

  function Distance(a: int, b: int): nat {
    if a < b then b - a else a - b
  }

  // The price of a step as told by the difference of two indices.
  function MoveCost(m: Grid, a: int, b: int): Option<nat> {
    var d := Distance(b, a);
    if d == 1 || d == m.width then Some(10)
    else if d == m.width + 1 || d == m.width - 1 then Some(14)
    else None
  }

  /** Every step to a neighbour has a price. */
  lemma NeighboursCost(m: Grid, a: int, b: int)
    requires Near(m, a, b)
    ensures MoveCost(m, a, b).Some? && MoveCost(m, a, b).value in {10, 14}
    ensures m.width != 2 ==> MoveCost(m, a, b).value == if Diagonal(m, a, b) then 14 else 10
  {
    hide Mul, X, Y, Size;
    RowBounds(m, a);
    RowBounds(m, b);
    MulNext(Y(m, a), m.width);
    assert m.width == 1 ==> X(m, a) == X(m, b);
  }

  /** The price tells straight steps from diagonal ones, unless the grid is two columns wide. */
  lemma CostsAreRight(m: Grid)
    ensures (forall a, b :: Near(m, a, b) ==> MoveCost(m, a, b) == Some(if Diagonal(m, a, b) then 14 else 10))
      <==> (m.width != 2 || m.height < 2)
  {
    forall a, b | Near(m, a, b) && (m.width != 2 || m.height < 2)
      ensures MoveCost(m, a, b) == Some(if Diagonal(m, a, b) then 14 else 10)
    {
      hide Mul, X, Y, Size;
      NeighboursCost(m, a, b);
      RowBounds(m, a);
      RowBounds(m, b);
    }
    if m.width == 2 && m.height >= 2 {
      assert Near(m, 1, 2) && Diagonal(m, 1, 2) && MoveCost(m, 1, 2) == Some(10);
    }
  }

  // What a cell adds to the price of a path that enters it.
  type Costs = seq<nat>

  ghost predicate IsPath(m: Grid, cost: Costs, limit: nat, p: seq<int>)
    requires |cost| == Size(m)
  {
    && p != [] && Inside(m, p[0])
    && (forall k :: 0 <= k < |p| - 1 ==> Near(m, p[k], p[k + 1]))
    && (forall k :: 0 < k < |p| ==> Inside(m, p[k]) && cost[p[k]] < limit)
  }

  /** The goal can be reached over cells below the limit. */
  ghost predicate Reachable(m: Grid, cost: Costs, limit: nat, start: int, goal: int)
    requires |cost| == Size(m)
  {
    exists p: seq<int> :: IsPath(m, cost, limit, p) && p[0] == start && p[|p| - 1] == goal
  }

  function StepCost(m: Grid, cost: Costs, a: int, b: int): nat
    requires Near(m, a, b) && |cost| == Size(m)
  {
    NeighboursCost(m, a, b);
    MoveCost(m, a, b).value + cost[b]
  }

  ghost function PathCost(m: Grid, cost: Costs, limit: nat, p: seq<int>): nat
    requires |cost| == Size(m) && IsPath(m, cost, limit, p)
  {
    if |p| == 1 then 0
    else
      PathTail(m, cost, limit, p);
      assert Near(m, p[0], p[0 + 1]);
      StepCost(m, cost, p[0], p[1]) + PathCost(m, cost, limit, p[1..])
  }

  lemma PathTail(m: Grid, cost: Costs, limit: nat, p: seq<int>)
    requires |cost| == Size(m) && IsPath(m, cost, limit, p) && |p| > 1
    ensures IsPath(m, cost, limit, p[1..])
  {
    var q := p[1..];
    forall k | 0 <= k < |q| - 1 ensures Near(m, q[k], q[k + 1]) {
      assert Near(m, p[k + 1], p[k + 1 + 1]);
    }
  }

  // The diagonal steps of a path.
  ghost function Slants(m: Grid, p: seq<int>): nat
    requires forall k :: 0 <= k < |p| ==> Inside(m, p[k])
  {
    if |p| <= 1 then 0 else Slants(m, p[1..]) + if Diagonal(m, p[0], p[1]) then 1 else 0
  }

  // The cells entered on a path, all but the first.
  ghost function Entered(m: Grid, cost: Costs, p: seq<int>): nat
    requires |cost| == Size(m) && forall k :: 0 <= k < |p| ==> Inside(m, p[k])
  {
    if |p| <= 1 then 0
    else
      assert Inside(m, p[1]);
      cost[p[1]] + Entered(m, cost, p[1..])
  }

  /** A path costs ten for each step, four more for each diagonal one, and what the cells entered cost. */
  lemma {:induction false} PathIsPriced(m: Grid, cost: Costs, limit: nat, p: seq<int>)
    requires |cost| == Size(m) && IsPath(m, cost, limit, p) && (m.width != 2 || m.height < 2)
    ensures forall k :: 0 <= k < |p| ==> Inside(m, p[k])
    ensures PathCost(m, cost, limit, p) == 10 * (|p| - 1) + 4 * Slants(m, p) + Entered(m, cost, p)
    decreases |p|
  {
    hide MoveCost, Near, Diagonal, Inside;
    if |p| > 1 {
      PathTail(m, cost, limit, p);
      PathIsPriced(m, cost, limit, p[1..]);
      assert Near(m, p[0], p[0 + 1]);
      StepIsPriced(m, cost, p[0], p[1]);
    }
  }

  lemma StepIsPriced(m: Grid, cost: Costs, a: int, b: int)
    requires |cost| == Size(m) && Near(m, a, b) && (m.width != 2 || m.height < 2)
    ensures StepCost(m, cost, a, b) == (if Diagonal(m, a, b) then 14 else 10) + cost[b]
  {
    hide MoveCost;
    CostsAreRight(m);
  }

  // A path prolonged at its beginning.
  lemma PathExtends(m: Grid, cost: Costs, limit: nat, a: int, p: seq<int>)
    requires |cost| == Size(m) && IsPath(m, cost, limit, p) && Near(m, a, p[0]) && cost[p[0]] < limit
    ensures IsPath(m, cost, limit, [a] + p)
    ensures PathCost(m, cost, limit, [a] + p) == StepCost(m, cost, a, p[0]) + PathCost(m, cost, limit, p)
  {
    var q := [a] + p;
    forall k | 0 <= k < |q| - 1 ensures Near(m, q[k], q[k + 1]) {
      if k > 0 { assert Near(m, p[k - 1], p[k - 1 + 1]); }
    }
    assert q[1..] == p;
  }

  /** What holds at the start and passes to every neighbour below the limit holds at the goal. */
  lemma {:induction false} ClosedHoldsPath(m: Grid, cost: Costs, limit: nat, p: seq<int>, closed: set<int>)
    requires |cost| == Size(m) && IsPath(m, cost, limit, p) && p[0] in closed
    requires forall a, b :: a in closed && Near(m, a, b) && cost[b] < limit ==> b in closed
    ensures p[|p| - 1] in closed
    decreases |p|
  {
    if |p| > 1 {
      PathTail(m, cost, limit, p);
      assert Near(m, p[0], p[0 + 1]);
      ClosedHoldsPath(m, cost, limit, p[1..], closed);
    }
  }
}
