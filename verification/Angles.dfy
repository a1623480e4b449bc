/** Angle arithmetic shared by the pose lookup and the turn-rate gate. */
module Angles {
  const PI := 3.141592653589793

  function Abs(x: real): real { if x < 0.0 then -x else x }

  /** Python's `%` on floats, for a positive modulus: the result has the modulus's sign. */
  function Mod(x: real, m: real): real
    requires m > 0.0
  {
    x - m * (x / m).Floor as real
  }

  /** The angle in [-pi, pi) that differs from `a` by whole turns. */
  function WrapAngle(a: real): real { Mod(a + PI, 2.0 * PI) - PI }

  lemma Product(x: real, y: real)
    requires x >= 0.0 && y >= 0.0
    ensures x * y >= 0.0
  {
  }

  lemma ModBounds(x: real, m: real)
    requires m > 0.0
    ensures 0.0 <= Mod(x, m) < m
  {
    var q := x / m;
    var f := q - q.Floor as real;
    FractionOf(f, m);
    assert q * m == x;
    assert Mod(x, m) == f * m;
  }

  lemma FractionOf(f: real, m: real)
    requires 0.0 <= f < 1.0 && m > 0.0
    ensures 0.0 <= f * m && f * m < m
  {
    Product(f, m);
    PositiveProduct(1.0 - f, m);
    assert (1.0 - f) * m == m - f * m;
  }

  lemma PositiveProduct(x: real, y: real)
    requires x > 0.0 && y > 0.0
    ensures x * y > 0.0
  {
  }

  function WholeTurns(k: int): real { 2.0 * PI * k as real }

  /** The two headings differ by whole turns. */
  ghost predicate SameHeading(a: real, b: real) {
    exists k: int :: a - b == WholeTurns(k)
  }

  /** Wrapping keeps the heading and brings it into [-pi, pi). */
  lemma WrapKeepsHeading(a: real)
    ensures SameHeading(WrapAngle(a), a)
    ensures -PI <= WrapAngle(a) < PI
  {
    ModBounds(a + PI, 2.0 * PI);
    var k := ((a + PI) / (2.0 * PI)).Floor;
    assert WrapAngle(a) - a == -WholeTurns(k);
    assert -WholeTurns(k) == WholeTurns(-k);
  }

  /** There is only one such angle. */
  lemma HeadingIsUnique(a: real, b: real)
    requires SameHeading(a, b) && -PI <= a < PI && -PI <= b < PI
    ensures a == b
  {
    var k: int :| a - b == WholeTurns(k);
    if k >= 1 {
      Product(2.0 * PI, k as real - 1.0);
    } else if k <= -1 {
      Product(2.0 * PI, -(k as real) - 1.0);
    }
  }

  lemma HeadingTransitive(a: real, b: real, c: real)
    requires SameHeading(a, b) && SameHeading(b, c)
    ensures SameHeading(a, c)
  {
    var k: int :| a - b == WholeTurns(k);
    var l: int :| b - c == WholeTurns(l);
    assert WholeTurns(k + l) == WholeTurns(k) + WholeTurns(l);
    assert a - c == WholeTurns(k + l);
  }

  lemma HeadingSymmetric(a: real, b: real)
    requires SameHeading(a, b)
    ensures SameHeading(b, a)
  {
    var k: int :| a - b == WholeTurns(k);
    assert WholeTurns(-k) == -WholeTurns(k);
    assert b - a == WholeTurns(-k);
  }

  /** `turn` is the shortest way from one heading to the other, a half turn counting as clockwise. */
  ghost predicate ShortestTurn(from: real, to: real, turn: real) {
    SameHeading(from + turn, to) && -PI <= turn < PI
  }

  lemma WrapIsShortest(from: real, to: real)
    ensures ShortestTurn(from, to, WrapAngle(to - from))
  {
    var turn := WrapAngle(to - from);
    WrapKeepsHeading(to - from);
    var k: int :| turn - (to - from) == WholeTurns(k);
    assert (from + turn) - to == WholeTurns(k);
  }

  lemma OneShortestTurn(from: real, to: real, a: real, b: real)
    requires ShortestTurn(from, to, a) && ShortestTurn(from, to, b)
    ensures a == b
  {
    var k: int :| from + a - to == WholeTurns(k);
    var l: int :| from + b - to == WholeTurns(l);
    assert WholeTurns(k - l) == WholeTurns(k) - WholeTurns(l);
    assert a - b == WholeTurns(k - l);
    HeadingIsUnique(a, b);
  }
}
