// What the planner's estimate of a distance says about steps on the grid.
module Estimates {
  import opened Options
  import opened Grid

  // Conversion of a real number to an integer drops the fraction.
  function Truncate(x: real): int {
    if x >= 0.0 then x.Floor else -(-x).Floor
  }

  // The estimate: columns and rows apart, each at the price of a straight step, scaled.
  function ManhattanDistance(m: Grid, factor: real, a: int, b: int): int
    requires m.width > 0
  {
    Truncate(factor * 10.0 * (Distance(a / m.width, b / m.width) + Distance(a % m.width, b % m.width)) as real)
  }

  // Whether one step costs at least what it is estimated at.
  predicate WithinPrice(m: Grid, factor: real, a: int, b: int)
    requires Near(m, a, b) && m.width > 0
  {
    ManhattanDistance(m, factor, a, b) <= if Diagonal(m, a, b) then 14 else 10
  }

  lemma StepEstimate(m: Grid, factor: real, a: int, b: int)
    requires Near(m, a, b) && m.width > 0 && factor >= 0.0
    ensures WithinPrice(m, factor, a, b) <==> factor < (if Diagonal(m, a, b) then 0.75 else 1.1)
  {
    var apart := Distance(Y(m, a), Y(m, b)) + Distance(X(m, a), X(m, b));
    assert Size(m) > 0;
    SamePlace(m, a, b);
    assert apart == if Diagonal(m, a, b) then 2 else 1;
    assert factor * 10.0 * apart as real == if Diagonal(m, a, b) then 20.0 * factor else 10.0 * factor;
  }

  lemma SamePlace(m: Grid, a: int, b: int)
    requires Inside(m, a) && Inside(m, b) && a != b
    ensures X(m, a) != X(m, b) || Y(m, a) != Y(m, b)
  {
    RowBounds(m, a);
    RowBounds(m, b);
    hide X, Y, Inside;
  }

  /**
   * No step is estimated above its price exactly when the factor is small enough, for straight and for diagonal
   * steps if there are any. With a factor of one diagonal steps are estimated too high.
   */
  lemma EstimateWithinPrice(m: Grid, factor: real)
    requires m.width > 0 && factor >= 0.0
    ensures (forall a, b :: Near(m, a, b) ==> WithinPrice(m, factor, a, b)) <==>
      (factor < 1.1 || Size(m) < 2) && (factor < 0.75 || m.width < 2 || m.height < 2)
  {
    forall a, b | Near(m, a, b)
      ensures Size(m) >= 2 && (Diagonal(m, a, b) ==> m.width >= 2 && m.height >= 2)
      ensures WithinPrice(m, factor, a, b) <==> factor < (if Diagonal(m, a, b) then 0.75 else 1.1)
    {
      StepEstimate(m, factor, a, b);
      hide X, Y, ManhattanDistance, Mul;
      RowBounds(m, a);
      RowBounds(m, b);
    }
    if Size(m) >= 2 { SomeStraightStep(m); }
    if m.width >= 2 && m.height >= 2 { SomeDiagonalStep(m); }
  }

  lemma SomeStraightStep(m: Grid)
    requires m.width > 0 && Size(m) >= 2
    ensures exists a, b :: Near(m, a, b) && !Diagonal(m, a, b)
  {
    hide X, Y, Inside, Size;
    SizeIsMul(m);
    MulNext(0, m.width);
    At(m, 0, 0, 0);
    if m.width >= 2 {
      At(m, 1, 1, 0);
      assert Near(m, 0, 1) && !Diagonal(m, 0, 1);
    } else {
      At(m, 1, 0, 1);
      assert Near(m, 0, 1) && !Diagonal(m, 0, 1);
    }
  }

  lemma SomeDiagonalStep(m: Grid)
    requires m.width >= 2 && m.height >= 2
    ensures exists a, b :: Near(m, a, b) && Diagonal(m, a, b)
  {
    hide X, Y, Inside, Size;
    MulNext(0, m.width);
    At(m, 0, 0, 0);
    At(m, m.width + 1, 1, 1);
    assert Near(m, 0, m.width + 1) && Diagonal(m, 0, m.width + 1);
  }

  /**
   * At a factor of one the estimate counts straight steps: none at the goal, and each straight step
   * takes ten off or adds ten.
   */
  lemma EstimateCounts(m: Grid, a: int, b: int, goal: int)
    requires m.width > 0 && Near(m, a, b) && !Diagonal(m, a, b) && Inside(m, goal)
    ensures ManhattanDistance(m, 1.0, goal, goal) == 0
    ensures a != goal ==> ManhattanDistance(m, 1.0, a, goal) > 0
    ensures ManhattanDistance(m, 1.0, a, goal) - ManhattanDistance(m, 1.0, b, goal) in {-10, 10}
  {
    SamePlace(m, a, b);
    if a != goal { SamePlace(m, a, goal); }
    EstimateIsWhole(m, a, goal);
    EstimateIsWhole(m, b, goal);
    EstimateIsWhole(m, goal, goal);
    hide ManhattanDistance;
  }

  lemma EstimateIsWhole(m: Grid, a: int, b: int)
    requires m.width > 0
    ensures ManhattanDistance(m, 1.0, a, b)
         == 10 * (Distance(a / m.width, b / m.width) + Distance(a % m.width, b % m.width))
  {}
}
