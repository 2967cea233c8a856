// The arithmetic of the formula that says how many samples so many occupied cells ask for.
module SampleFormula {
  function Ceil(x: real): int {
    -((-x).Floor)
  }

  // The two roots in the formula, for so many cells and for one more.
  lemma RootsOf(n: real, u: real, v: real)
    requires n >= 1.0 && u >= 0.0 && v >= 0.0
    requires u * u == 2.0 / (9.0 * n) && v * v == 2.0 / (9.0 * (n + 1.0))
    ensures n * Square(u) == (n + 1.0) * Square(v) && 0.0 < v < u < 2.0 * v
    ensures Square(u) == 2.0 / (9.0 * n) < 1.0 && Square(v) == 2.0 / (9.0 * (n + 1.0))
  {
    var p, q := u * u, v * v;
    assert p * (9.0 * n) == 2.0 && q * (9.0 * (n + 1.0)) == 2.0;
    assert n * p == 2.0 / 9.0 && (n + 1.0) * q == 2.0 / 9.0;
    assert p > 0.0 && q > 0.0;
    assert n * (p - q) == q;
    Positive(n, p - q);
    assert n * (4.0 * q - p) == (3.0 * n - 1.0) * q > 0.0;
    Positive(n, 4.0 * q - p);
    assert 0.0 * 0.0 < v * v;
    SquareOrder(0.0, v);
    SquareOrder(v, u);
    SquareOrder(u, 2.0 * v);
  }

  lemma SquareOrder(x: real, y: real)
    requires x >= 0.0 && y >= 0.0 && x * x < y * y
    ensures x < y
  {
    assert y > 0.0;
    assert (y + x) * (y - x) == y * y - x * x > 0.0;
    Positive(y + x, y - x);
  }

  lemma Positive(n: real, x: real)
    requires n > 0.0 && n * x > 0.0
    ensures x > 0.0
  {}

  lemma NotNegative(a: real, b: real)
    requires a >= 0.0 && b >= 0.0
    ensures a * b >= 0.0
  {}

  function OverQuotient(n: real, r: real, x: real): real
    requires r != 0.0
  {
    n / r * x * x * x
  }

  lemma CubeOverQuotient(n: real, r: real, a: real)
    requires r > 0.0
    ensures OverQuotient(n, r, a) == (n * Cube(a)) / r
  {
    var q := n / r;
    assert n == q * r;
    assert (q * a * a * a) * r == n * (a * a * a);
  }

  lemma CeilGrows(x: real, y: real)
    requires x <= y
    ensures Ceil(x) <= Ceil(y)
  {}

  lemma QuotientGrows(x: real, y: real, r: real)
    requires x <= y && r > 0.0
    ensures x / r <= y / r
  {}

  function Square(x: real): real {
    x * x
  }

  function Cube(x: real): real {
    x * x * x
  }

  // The cubes in the formula fall by less than the number of cells grows.
  lemma CubeGrows(n: real, u: real, v: real, a: real, c: real)
    requires n >= 1.0 && n * Square(u) == (n + 1.0) * Square(v) && 0.0 < v < u < 2.0 * v && Square(u) < 1.0
    requires a == 1.0 - Square(u) + u * 3.0 && c == 1.0 - Square(v) + v * 3.0
    ensures n * Cube(a) <= (n + 1.0) * Cube(c)
  {
    hide Square, Cube;
    var f := v + 0.45 * (u - v);
    CubesFall(u, v, a, c, f);
    CubeBound(v, u);
    CubePositive(v);
    CubePositive(c);
    Products(n, Cube(a), Cube(c), v, Square(v), Cube(v), Square(u), Cube(f));
  }

  lemma CubesFall(u: real, v: real, a: real, c: real, f: real)
    requires 0.0 < v < u && Square(u) < 1.0 && a == 1.0 - Square(u) + u * 3.0 && c == 1.0 - Square(v) + v * 3.0
    requires f == v + 0.45 * (u - v)
    ensures c > 0.0 && Cube(a) * Cube(v) <= Cube(c) * Cube(f)
  {
    hide Square, Cube;
    SlowRise(u, v, a, c);
    CubesCompare(a, v, c, f);
  }

  lemma CubePositive(x: real)
    requires x > 0.0
    ensures Square(x) > 0.0 && Cube(x) > 0.0 && Cube(x) == Square(x) * x
  {
    var s := Square(x);
    assert s == x * x > 0.0;
    assert Cube(x) == s * x > 0.0;
  }

  lemma Products(n: real, a3: real, c3: real, v: real, v2: real, v3: real, u2: real, f3: real)
    requires n >= 1.0 && v > 0.0 && v2 > 0.0 && v3 == v2 * v && c3 >= 0.0 && n * u2 == (n + 1.0) * v2
    requires a3 * v3 <= c3 * f3 && f3 <= v * u2
    ensures n * a3 <= (n + 1.0) * c3
  {
    NotNegative(c3, v * u2 - f3);
    assert (a3 * v2) * v == a3 * v3 && (c3 * u2) * v == c3 * (v * u2);
    Cancel(a3 * v2, c3 * u2, v);
    assert n * (a3 * v2) <= n * (c3 * u2);
    assert n * (c3 * u2) == c3 * (n * u2) == ((n + 1.0) * c3) * v2;
    Cancel(n * a3, (n + 1.0) * c3, v2);
  }

  lemma Cancel(x: real, y: real, z: real)
    requires z > 0.0 && x * z <= y * z
    ensures x <= y
  {}

  lemma SlowRise(u: real, v: real, a: real, c: real)
    requires 0.0 < v < u && Square(u) < 1.0 && a == 1.0 - Square(u) + u * 3.0 && c == 1.0 - Square(v) + v * 3.0
    ensures a > 0.0 && c > 0.0 && a * v <= c * (v + 0.45 * (u - v))
  {
    var d := u - v;
    assert Square(v) < Square(u);
    assert a - c == d * (3.0 - u - v);
    FlatParabola(v);
    var q := v * (3.0 - u - v);
    NotNegative(v, d);
    assert v * (3.0 - 2.0 * v) - q == v * d;
    assert (a - c) * v == d * q;
    assert d * q <= d * (0.45 * c);
  }

  lemma FlatParabola(v: real)
    ensures v * (3.0 - 2.0 * v) <= 0.45 * (1.0 - Square(v) + v * 3.0)
  {
    var h := v - 33.0 / 62.0;
    assert h * h >= 0.0;
    assert h * h == v * v - 33.0 / 31.0 * v + (33.0 / 62.0) * (33.0 / 62.0);
  }

  lemma CubesCompare(a: real, v: real, c: real, f: real)
    requires a >= 0.0 && v >= 0.0 && a * v <= c * f
    ensures Cube(a) * Cube(v) <= Cube(c) * Cube(f)
  {
    hide Cube;
    CubeOfProduct(a, v);
    CubeOfProduct(c, f);
    NotNegative(a, v);
    CubeOrder(a * v, c * f);
  }

  lemma CubeOfProduct(a: real, v: real)
    ensures Cube(a * v) == Cube(a) * Cube(v)
  {
    var b := a * v;
    assert b * b == (a * a) * (v * v);
    assert b * b * b == (a * a) * (v * v) * (a * v);
  }

  lemma CubeOrder(x: real, y: real)
    requires 0.0 <= x <= y
    ensures Cube(x) <= Cube(y)
  {
    assert x * x <= x * y <= y * y;
    assert x * x * x <= y * y * x <= y * y * y;
  }

  lemma CubeBound(v: real, u: real)
    requires 0.0 < v < u < 2.0 * v
    ensures Cube(v + 0.45 * (u - v)) <= v * Square(u)
  {
    var d := u - v;
    var f := v + 0.45 * d;
    assert f * f * f == v * v * v + 1.35 * (v * v * d) + 0.6075 * (v * d * d) + 0.091125 * (d * d * d);
    assert v * (u * u) == v * v * v + 2.0 * (v * v * d) + v * d * d;
    NotNegative(v - d, d * d);
    NotNegative(v * v, d);
    NotNegative(v, d * d);
  }
}
