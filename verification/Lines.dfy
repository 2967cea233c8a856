// Straight lines over grid cells: which cells a line has, and what holds of them.
module Lines {
  import opened Grid

  datatype Cell = Cell(x: int, y: int)

  function Sign(d: int): int {
    if d > 0 then 1 else -1
  }

  function Abs(d: int): nat {
    if d < 0 then -d else d
  }

  /** b cells to the side after k of da steps are the nearest to the ideal line; a tie goes to the far side. */
  predicate IsNearest(da: nat, db: nat, k: nat, b: int) {
    2 * Mul(k, db) - da < 2 * Mul(b, da) <= 2 * Mul(k, db) + da
  }

  function Nearest(da: nat, db: nat, k: nat): int {
    if da == 0 then 0 else (2 * Mul(k, db) + da) / (2 * da)
  }

  lemma NearestIs(da: nat, db: nat, k: nat)
    requires da > 0
    ensures IsNearest(da, db, k, Nearest(da, db, k))
  {
    var p, q := 2 * Mul(k, db) + da, Nearest(da, db, k);
    DivIsMul(p, 2 * da);
    assert Mul(q, 2 * da) == 2 * Mul(q, da);
  }

  lemma NearestUnique(da: nat, db: nat, k: nat, b: int)
    requires da > 0 && IsNearest(da, db, k, b)
    ensures b == Nearest(da, db, k)
  {
    NearestIs(da, db, k);
    hide Mul, Nearest;
    var c := Nearest(da, db, k);
    MulNext(b, da);
    MulNext(c, da);
    if b < c { MulGrows(b + 1, c, da); }
    if c < b { MulGrows(c + 1, b, da); }
  }

  // ------------------------------------------------------------ the cells of a line

  predicate Flat(a: Cell, b: Cell) {
    Abs(b.x - a.x) >= Abs(b.y - a.y)
  }

  /** The number of steps of a line. */
  function Length(a: Cell, b: Cell): nat {
    if Flat(a, b) then Abs(b.x - a.x) else Abs(b.y - a.y)
  }

  function Rise(a: Cell, b: Cell): nat {
    if Flat(a, b) then Abs(b.y - a.y) else Abs(b.x - a.x)
  }

  function LineCell(a: Cell, b: Cell, k: nat): Cell {
    var n := Nearest(Length(a, b), Rise(a, b), k);
    if Flat(a, b) then Cell(a.x + Sign(b.x - a.x) * k, a.y + Sign(b.y - a.y) * n)
    else Cell(a.x + Sign(b.x - a.x) * n, a.y + Sign(b.y - a.y) * k)
  }

  function Line(a: Cell, b: Cell): (r: seq<Cell>)
    ensures |r| == Length(a, b) + 1 && forall k :: 0 <= k < |r| ==> r[k] == LineCell(a, b, k)
  {
    seq(Length(a, b) + 1, k requires 0 <= k => LineCell(a, b, k))
  }

  // The side offset starts at nothing, ends at the whole rise, and never goes back or jumps.
  lemma NearestEnds(da: nat, db: nat)
    requires db <= da
    ensures Nearest(da, db, 0) == 0 && Nearest(da, db, da) == db
  {
    if da > 0 {
      assert Mul(0, db) == 0 && Mul(0, da) == 0;
      NearestUnique(da, db, 0, 0);
      assert Mul(da, db) == Mul(db, da);
      NearestUnique(da, db, da, db);
    }
  }

  lemma NearestSteps(da: nat, db: nat, k: nat)
    requires 0 < da && db <= da
    ensures Nearest(da, db, k) <= Nearest(da, db, k + 1) <= Nearest(da, db, k) + 1
  {
    NearestIs(da, db, k);
    NearestIs(da, db, k + 1);
    hide Nearest, Mul;
    var n, n' := Nearest(da, db, k), Nearest(da, db, k + 1);
    MulNext(k, db);
    MulNext(n, da);
    MulNext(n', da);
    MulNext(n + 1, da);
    if n' < n { MulGrows(n' + 1, n, da); }
    if n + 1 < n' { MulGrows(n + 2, n', da); }
  }

  lemma {:induction false} NearestGrows(da: nat, db: nat, j: nat, k: nat)
    requires 0 < da && db <= da && j <= k
    ensures Nearest(da, db, j) <= Nearest(da, db, k)
    decreases k
  {
    if j < k {
      NearestGrows(da, db, j, k - 1);
      NearestSteps(da, db, k - 1);
    }
  }

  lemma NearestBounds(da: nat, db: nat, k: nat)
    requires db <= da && k <= da
    ensures 0 <= Nearest(da, db, k) <= db
  {
    NearestEnds(da, db);
    if da > 0 {
      NearestGrows(da, db, 0, k);
      NearestGrows(da, db, k, da);
    }
  }

  /** A line begins at its first point and ends at its last. */
  lemma LineEnds(a: Cell, b: Cell)
    ensures LineCell(a, b, 0) == a && LineCell(a, b, Length(a, b)) == b
  {
    NearestEnds(Length(a, b), Rise(a, b));
    hide Nearest;
  }

  predicate Between(a: int, v: int, b: int) {
    a <= v <= b || b <= v <= a
  }

  /** No cell of a line lies outside the box its ends span. */
  lemma LineInBox(a: Cell, b: Cell, k: nat)
    requires k <= Length(a, b)
    ensures Between(a.x, LineCell(a, b, k).x, b.x) && Between(a.y, LineCell(a, b, k).y, b.y)
  {
    NearestBounds(Length(a, b), Rise(a, b), k);
    hide Nearest;
  }

  predicate Touch(c: Cell, d: Cell) {
    c != d && -1 <= c.x - d.x <= 1 && -1 <= c.y - d.y <= 1
  }

  /** Each cell touches the one before: a line has no gaps and stays nowhere. */
  lemma LineTouches(a: Cell, b: Cell, k: nat)
    requires k < Length(a, b)
    ensures Touch(LineCell(a, b, k), LineCell(a, b, k + 1))
  {
    NearestSteps(Length(a, b), Rise(a, b), k);
    hide Nearest;
  }

  /**
   * No cell is further than half a cell from the ideal line, measured across it. With the deviation
   * scaled by the length: twice the distance is at most one cell.
   */
  lemma LineIsStraight(a: Cell, b: Cell, k: nat)
    requires k <= Length(a, b)
    ensures var c := LineCell(a, b, k);
      if Flat(a, b) then
        && 2 * Abs(Mul(Abs(c.y - a.y), Abs(b.x - a.x)) - Mul(Abs(c.x - a.x), Abs(b.y - a.y))) <= Abs(b.x - a.x)
      else
        && 2 * Abs(Mul(Abs(c.x - a.x), Abs(b.y - a.y)) - Mul(Abs(c.y - a.y), Abs(b.x - a.x))) <= Abs(b.y - a.y)
  {
    var da, db := Length(a, b), Rise(a, b);
    NearestBounds(da, db, k);
    MulNext(k, 0);
    if da > 0 { NearestIs(da, db, k); }
    hide Nearest, Mul;
    MulNext(0, 0);
  }

  // Halfway between two cells a line takes the one further from its first point.
  lemma HalfwayGoesFar()
    ensures LineCell(Cell(0, 0), Cell(2, 1), 1) == Cell(1, 1) && LineCell(Cell(0, 0), Cell(-1, -2), 1) == Cell(-1, -1)
  {
    assert Mul(1, 1) == 1 && Mul(1, 2) == 2;
    NearestUnique(2, 1, 1, 1);
    hide Nearest;
  }

  /** Every column between the ends has a cell of the line in it. */
  lemma LineCrosses(a: Cell, b: Cell, x: int) returns (k: nat)
    requires Between(a.x, x, b.x)
    ensures k <= Length(a, b) && LineCell(a, b, k).x == x
  {
    hide Nearest;
    NearestEnds(Length(a, b), Rise(a, b));
    if Flat(a, b) {
      k := Abs(x - a.x);
    } else {
      k := CrossingStep(Length(a, b), Rise(a, b), Abs(x - a.x), Length(a, b));
    }
  }

  lemma {:induction false} CrossingStep(da: nat, db: nat, n: nat, upTo: nat) returns (k: nat)
    requires 0 < da && db <= da && n <= Nearest(da, db, upTo)
    ensures k <= upTo && Nearest(da, db, k) == n
    decreases upTo
  {
    NearestEnds(da, db);
    if Nearest(da, db, upTo) == n {
      k := upTo;
    } else {
      NearestSteps(da, db, upTo - 1);
      k := CrossingStep(da, db, n, upTo - 1);
    }
  }
}
