/** Points of the plane, squared distances, and the facts about real products the geometry rests on. */
module Plane {

  datatype Point = Point(x: real, y: real)

  function Square(a: real): real {
    a * a
  }

  function DistanceSquared(p: Point, q: Point): real {
    Square(p.x - q.x) + Square(p.y - q.y)
  }

  lemma Ratio(n: real, d: real) returns (t: real)
    requires (0.0 <= n <= d && d > 0.0) || (d <= n <= 0.0 && d < 0.0)
    ensures t == n / d && 0.0 <= t <= 1.0 && n == t * d
  {
    t := n / d;
    assert n == t * d;
    if t > 1.0 {
      assert (t - 1.0) * d != 0.0;
      assert t * d == d + (t - 1.0) * d;
      assert d > 0.0 ==> (t - 1.0) * d > 0.0;
      assert d < 0.0 ==> (t - 1.0) * d < 0.0;
    }
  }

  lemma Slide(t: real, a: real, b: real) returns (x: real)
    requires 0.0 <= t <= 1.0
    ensures x == a + t * (b - a) && (a <= x <= b || b <= x <= a)
  {
    var d := b - a;
    var step := Part(t, d);
    x := a + step;
  }

  lemma Part(t: real, d: real) returns (step: real)
    requires 0.0 <= t <= 1.0
    ensures step == t * d && (0.0 <= step <= d || d <= step <= 0.0)
  {
    if d >= 0.0 {
      step := PositivePart(t, d);
    } else {
      step := PositivePart(t, -d);
      assert t * -d == -(t * d);
      step := -step;
    }
  }

  lemma PositivePart(t: real, d: real) returns (step: real)
    requires 0.0 <= t <= 1.0 && 0.0 <= d
    ensures step == t * d && 0.0 <= step <= d
  {
    step := NonNegative(t, d);
    var rest := NonNegative(1.0 - t, d);
    assert rest == d - step;
  }

  lemma NonNegative(a: real, b: real) returns (p: real)
    requires a >= 0.0 && b >= 0.0
    ensures p == a * b && p >= 0.0
  {
    p := a * b;
  }

  lemma ZeroFactor(s: real, d: real)
    requires s * d == 0.0 && d != 0.0
    ensures s == 0.0
  {
  }

  lemma SquareOf(a: real) returns (s: real)
    ensures s == a * a && s >= 0.0 && (a != 0.0 ==> s > 0.0)
  {
    if a > 0.0 {
      s := Positive(a, a);
    } else if a < 0.0 {
      s := Positive(-a, -a);
    } else {
      s := 0.0;
    }
  }

  lemma Positive(a: real, b: real) returns (p: real)
    requires a > 0.0 && b > 0.0
    ensures p == a * b && p > 0.0
  {
    p := a * b;
  }

  lemma Squares(a: real, b: real)
    requires 0.0 <= a <= b
    ensures a * a <= b * b
  {
    assert b * b - a * a == (b - a) * (b + a);
  }

  /** Lengths compare as their squares do. */
  lemma RootsCompare(a: real, b: real)
    requires a >= 0.0 && b >= 0.0
    ensures a * a <= b * b <==> a <= b
  {
    var d, e := a - b, a + b;
    assert a * a - b * b == d * e;
    assert d > 0.0 ==> d * e > 0.0;
    assert d <= 0.0 ==> d * e <= 0.0;
  }
}
