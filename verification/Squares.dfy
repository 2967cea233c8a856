// Which stretch of a line divided into equal ones a number lies in.
module Squares {
  // A distance that lies in a given column or row.
  predicate InSquare(d: real, r: real, x: int) {
    x as real * r <= d < (x + 1) as real * r
  }

  /** The quotient rounded down is the one stretch that holds the number. */
  lemma SquareOf(d: real, r: real)
    requires r > 0.0
    ensures d >= 0.0 ==> (d / r).Floor >= 0
    ensures forall x :: InSquare(d, r, x) <==> x == (d / r).Floor
  {
    ScaleOrder(0.0, d, r);
    forall x ensures InSquare(d, r, x) <==> x == (d / r).Floor {
      ScaleOrder(x as real, d, r);
      ScaleOrder((x + 1) as real, d, r);
      FloorIs(d / r, x);
    }
  }

  lemma FloorIs(q: real, x: int)
    ensures x as real <= q < (x + 1) as real <==> x == q.Floor
  {}

  lemma ScaleOrder(a: real, d: real, r: real)
    requires r > 0.0
    ensures a * r <= d <==> a <= d / r
  {
    var q := d / r;
    assert d == q * r;
    if a <= q { assert (q - a) * r >= 0.0; } else { assert (a - q) * r > 0.0; }
  }

  // Left of or below the origin there is no cell.
  lemma NoSquareBelow(d: real, r: real)
    requires r > 0.0
    ensures d < 0.0 ==> forall x :: x >= 0 ==> !InSquare(d, r, x)
  {
    forall x | x >= 0 && d < 0.0 ensures !InSquare(d, r, x) {
      ScaleOrder(0.0, x as real * r, r);
    }
  }
}
