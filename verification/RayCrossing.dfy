/** Point in polygon by counting crossings of the ray towards `X+` (`Polygon::isPointInside`). */
module RayCrossing {
  import opened Plane

  /**
   The edge runs between the two sides of the horizontal line through `p`; the line itself counts as the upper side.
   */
  predicate Straddles(p: Point, a: Point, b: Point) {
    (p.y <= a.y) == (p.y > b.y)
  }

  /** Where the edge meets the horizontal line through `p`. */
  function Intersection(p: Point, a: Point, b: Point): real
    requires Straddles(p, a, b)
  {
    a.x + (p.y - a.y) * (b.x - a.x) / (b.y - a.y)
  }

  /** The ray from `p` crosses the edge. */
  predicate Crosses(p: Point, a: Point, b: Point) {
    Straddles(p, a, b) && Intersection(p, a, b) > p.x
  }

  // ---------------------------------------------------------------- parity of marked edges

  /** Which edges are marked. */
  type Marking = (Point, Point) -> bool

  predicate Xor(a: bool, b: bool) {
    a != b
  }

  /** Whether an odd number of the edges of an open path are marked. */
  predicate PathOdd(path: seq<Point>, marked: Marking) {
    |path| >= 2 && Xor(PathOdd(path[..|path| - 1], marked), marked(path[|path| - 2], path[|path| - 1]))
  }

  /** Whether an odd number of the edges of a closed polygon are marked. */
  predicate Odd(poly: seq<Point>, marked: Marking) {
    poly != [] && PathOdd(poly + [poly[0]], marked)
  }

  ghost predicate Symmetric(marked: Marking) {
    forall a, b :: marked(a, b) == marked(b, a)
  }

  /** Two paths that share a vertex, one after the other. */
  lemma {:induction false} JoinPaths(a: seq<Point>, v: Point, b: seq<Point>, marked: Marking)
    ensures PathOdd(a + [v] + b, marked) == Xor(PathOdd(a + [v], marked), PathOdd([v] + b, marked))
  {
    if b == [] {
      assert a + [v] + b == a + [v];
      assert [v] + b == [v];
    } else {
      var b' := b[..|b| - 1];
      JoinPaths(a, v, b', marked);
      var whole, tail := a + [v] + b, [v] + b;
      assert whole[..|whole| - 1] == a + [v] + b';
      assert tail[..|tail| - 1] == [v] + b';
      assert whole[|whole| - 2] == tail[|tail| - 2] && whole[|whole| - 1] == tail[|tail| - 1];
    }
  }

  /** A polygon closed at `v` that passes through `w` is the path there and the path back. */
  lemma ThereAndBack(v: Point, front: seq<Point>, w: Point, back: seq<Point>, marked: Marking)
    ensures Odd([v] + front + [w] + back, marked) ==
            Xor(PathOdd([v] + front + [w], marked), PathOdd([w] + back + [v], marked))
  {
    JoinPaths([v] + front, w, back + [v], marked);
    assert [v] + front + [w] + back + [v] == [v] + front + [w] + (back + [v]);
    assert [w] + (back + [v]) == [w] + back + [v];
  }

  lemma OddOfRotation(poly: seq<Point>, k: nat, marked: Marking)
    requires k <= |poly|
    ensures Odd(poly[k..] + poly[..k], marked) == Odd(poly, marked)
  {
    if 0 < k < |poly| {
      var v, front, w, back := poly[0], poly[1..k], poly[k], poly[k + 1..];
      assert poly == [v] + front + [w] + back;
      assert poly[k..] + poly[..k] == [w] + back + [v] + front;
      ThereAndBack(v, front, w, back, marked);
      ThereAndBack(w, back, v, front, marked);
    } else {
      assert poly[k..] + poly[..k] == poly;
    }
  }

  function Reversed(s: seq<Point>): seq<Point> {
    if s == [] then [] else Reversed(s[1..]) + [s[0]]
  }

  /** Walking a path backwards meets the same edges. */
  lemma {:induction false} OddOfReversedPath(path: seq<Point>, marked: Marking)
    requires Symmetric(marked)
    ensures PathOdd(Reversed(path), marked) == PathOdd(path, marked)
    decreases |path|
  {
    if |path| == 1 {
      assert Reversed(path) == [path[0]];
    } else if |path| >= 2 {
      var v, w, rest := path[0], path[1], path[2..];
      OddOfReversedPath(path[1..], marked);
      assert path == [v] + [w] + rest && path[1..] == [w] + rest;
      JoinPaths([v], w, rest, marked);
      assert Reversed(path[1..]) == Reversed(rest) + [w] by { assert path[1..][1..] == rest; }
      JoinPaths(Reversed(rest), w, [v], marked);
      OneEdge(v, w, marked);
      OneEdge(w, v, marked);
    }
  }

  lemma OneEdge(a: Point, b: Point, marked: Marking)
    ensures PathOdd([a] + [b], marked) == marked(a, b)
  {
  }

  lemma OddOfReversal(poly: seq<Point>, marked: Marking)
    requires Symmetric(marked)
    ensures Odd(Reversed(poly), marked) == Odd(poly, marked)
  {
    if poly != [] {
      var v, rest := poly[0], poly[1..];
      ReversedRotated(v, Reversed(rest), marked);
      ClosedReversed(v, rest);
      assert [v] + rest + [v] == poly + [v];
      OddOfReversedPath([v] + rest + [v], marked);
    }
  }

  /** Rotating a list to bring its last vertex to the front. */
  lemma ReversedRotated(v: Point, r: seq<Point>, marked: Marking)
    ensures Odd(r + [v], marked) == PathOdd([v] + r + [v], marked)
  {
    var k := |r|;
    var poly := r + [v];
    OddOfRotation(poly, k, marked);
    assert poly[k..] + poly[..k] == [v] + r;
  }

  /** A closed path backwards is closed at the same vertex. */
  lemma ClosedReversed(v: Point, rest: seq<Point>)
    ensures Reversed([v] + rest + [v]) == [v] + Reversed(rest) + [v]
  {
    ReversedEnd(rest, v);
    assert ([v] + rest + [v])[1..] == rest + [v];
  }

  lemma {:induction false} ReversedEnd(s: seq<Point>, v: Point)
    ensures Reversed(s + [v]) == [v] + Reversed(s)
  {
    if s == [] {
      assert Reversed([v]) == [v];
    } else {
      ReversedEnd(s[1..], v);
      assert (s + [v])[1..] == s[1..] + [v];
    }
  }

  /** A path closed by one edge. */
  lemma ClosedBy(v: Point, front: seq<Point>, w: Point, marked: Marking)
    ensures Odd([v] + front + [w], marked) == Xor(PathOdd([v] + front + [w], marked), marked(w, v))
  {
  }

  lemma CutBetween(v: Point, front: seq<Point>, w: Point, back: seq<Point>, marked: Marking)
    requires Symmetric(marked)
    ensures Odd([v] + front + [w] + back, marked) == Xor(Odd([v] + front + [w], marked), Odd([w] + back + [v], marked))
  {
    ThereAndBack(v, front, w, back, marked);
    ClosedBy(v, front, w, marked);
    ClosedBy(w, back, v, marked);
  }

  /** Cutting a polygon along the segment between two of its vertices: the new edge is counted once on each side. */
  lemma OddOfCut(poly: seq<Point>, i: nat, j: nat, marked: Marking)
    requires Symmetric(marked) && i < j < |poly|
    ensures Odd(poly, marked) == Xor(Odd(poly[i..j + 1], marked), Odd(poly[j..] + poly[..i + 1], marked))
  {
    OddOfRotation(poly, i, marked);
    var v, front, w := poly[i], poly[i + 1..j], poly[j];
    var back := poly[j + 1..] + poly[..i];
    assert poly[i..] + poly[..i] == [v] + front + [w] + back;
    assert poly[i..j + 1] == [v] + front + [w];
    assert poly[j..] + poly[..i + 1] == [w] + back + [v];
    CutBetween(v, front, w, back, marked);
  }

  lemma {:induction false} SameMarksSameParity(path: seq<Point>, marked: Marking, marked': Marking)
    requires forall i, j :: 0 <= i && j == i + 1 < |path| ==> marked(path[i], path[j]) == marked'(path[i], path[j])
    ensures PathOdd(path, marked) == PathOdd(path, marked')
  {
    if |path| >= 2 {
      SameMarksSameParity(path[..|path| - 1], marked, marked');
      var i, j := |path| - 2, |path| - 1;
      assert marked(path[i], path[j]) == marked'(path[i], path[j]);
    }
  }

  // ---------------------------------------------------------------- the test

  /** The edges crossed by the ray from `p`. */
  function Crossed(p: Point): Marking {
    (a, b) => Crosses(p, a, b)
  }

  /** Whether the ray from `p` crosses an odd number of edges of the closed polygon. */
  predicate Inside(poly: seq<Point>, p: Point) {
    Odd(poly, Crossed(p))
  }

  /** `isPointInside`: one pass that starts at the closing edge and flips the answer at every crossing. */
  method IsPointInside(poly: seq<Point>, p: Point) returns (res: bool)
    ensures res == Inside(poly, p)
  {
    res := false;
    var i := |poly| - 1;
    var j := 0;
    while j < |poly|
      invariant 0 <= j <= |poly| && i == (if j == 0 then |poly| - 1 else j - 1)
      invariant j > 0 ==> res == Xor(PathOdd(poly[..j], Crossed(p)), Crosses(p, poly[|poly| - 1], poly[0]))
      invariant j == 0 ==> !res
    {
      var flip := Flips(p, poly[i], poly[j]);
      res := if flip then !res else res;
      assert j > 0 ==> poly[..j + 1][..j] == poly[..j];
      i := j;
      j := j + 1;
    }
    if poly != [] {
      assert poly[..|poly|] == poly;
      assert (poly + [poly[0]])[..|poly|] == poly;
    }
  }

  /** The test of one edge; the division is never by zero. */
  method Flips(p: Point, a: Point, b: Point) returns (flip: bool)
    ensures flip == Crosses(p, a, b)
  {
    flip := false;
    if (p.y <= a.y) == (p.y > b.y) {
      var xInter := a.x + (p.y - a.y) * (b.x - a.x) / (b.y - a.y);
      flip := xInter > p.x;
    }
  }

  /** `getPointsInside`. */
  method GetPointsInside(poly: seq<Point>, points: seq<Point>) returns (num: nat)
    ensures num == Count(points, p => Inside(poly, p))
  {
    num := 0;
    for k := 0 to |points|
      invariant num == Count(points[..k], p => Inside(poly, p))
    {
      var inside := IsPointInside(poly, points[k]);
      if inside {
        num := num + 1;
      }
      assert points[..k + 1][..k] == points[..k];
    }
    assert points[..|points|] == points;
  }

  /** How many points have a property. */
  function Count(points: seq<Point>, has: Point -> bool): nat {
    if points == [] then 0
    else Count(points[..|points| - 1], has) + if has(points[|points| - 1]) then 1 else 0
  }

  // ---------------------------------------------------------------- what the test answers

  lemma Regroup(n: real, e: real, d: real)
    requires d != 0.0
    ensures n * e / d == n / d * e
  {
  }

  /** An edge meets the line between its ends, a fraction `t` of the way along. */
  lemma Fraction(p: Point, a: Point, b: Point) returns (t: real, x: real)
    requires Straddles(p, a, b)
    ensures 0.0 <= t <= 1.0 && x == Intersection(p, a, b) == a.x + t * (b.x - a.x) && p.y - a.y == t * (b.y - a.y)
    ensures a.x <= x <= b.x || b.x <= x <= a.x
  {
    t := Ratio(p.y - a.y, b.y - a.y);
    Regroup(p.y - a.y, b.x - a.x, b.y - a.y);
    x := Slide(t, a.x, b.x);
  }

  /** An edge is met at the same point from either end. */
  lemma SameIntersection(p: Point, a: Point, b: Point)
    requires Straddles(p, a, b)
    ensures Straddles(p, b, a) && Intersection(p, b, a) == Intersection(p, a, b)
  {
    var t, x := Fraction(p, a, b);
    var u, x' := Fraction(p, b, a);
    var d := b.y - a.y;
    assert p.y - b.y == -(u * d);
    var s := t + u - 1.0;
    assert s * d == t * d + u * d - d;
    ZeroFactor(s, d);
    assert u == 1.0 - t;
    Halves(t, a.x, b.x);
  }

  lemma Halves(t: real, a: real, b: real)
    ensures a + t * (b - a) == b + (1.0 - t) * (a - b)
  {
  }

  lemma CrossedIsSymmetric(p: Point)
    ensures Symmetric(Crossed(p))
  {
    forall a, b ensures Crosses(p, a, b) == Crosses(p, b, a) {
      if Straddles(p, a, b) {
        SameIntersection(p, a, b);
      }
    }
  }

  /** Rotating or reversing the vertex list leaves the answer alone. */
  lemma InsideIsAboutTheCurve(poly: seq<Point>, k: nat, p: Point)
    requires k <= |poly|
    ensures Inside(poly[k..] + poly[..k], p) == Inside(poly, p) == Inside(Reversed(poly), p)
  {
    CrossedIsSymmetric(p);
    OddOfRotation(poly, k, Crossed(p));
    OddOfReversal(poly, Crossed(p));
  }

  /** Cutting any polygon along any diagonal makes the answer the exclusive or of the answers for the two parts. */
  lemma InsideOfCut(poly: seq<Point>, i: nat, j: nat, p: Point)
    requires i < j < |poly|
    ensures Inside(poly, p) == Xor(Inside(poly[i..j + 1], p), Inside(poly[j..] + poly[..i + 1], p))
  {
    CrossedIsSymmetric(p);
    OddOfCut(poly, i, j, Crossed(p));
  }

  function Straddled(p: Point): Marking {
    (a, b) => Straddles(p, a, b)
  }

  /** A path straddles the line an odd number of times exactly when its ends are on different sides. */
  lemma {:induction false} EndsDecide(path: seq<Point>, p: Point)
    requires path != []
    ensures PathOdd(path, Straddled(p)) == ((p.y <= path[0].y) != (p.y <= path[|path| - 1].y))
  {
    if |path| >= 2 {
      EndsDecide(path[..|path| - 1], p);
    }
  }

  /** Every horizontal line straddles an even number of the edges of a closed polygon. */
  lemma StraddlesEvenly(poly: seq<Point>, p: Point)
    ensures !Odd(poly, Straddled(p))
  {
    if poly != [] {
      EndsDecide(poly + [poly[0]], p);
    }
  }

  lemma {:induction false} NoneMarked(path: seq<Point>)
    ensures !PathOdd(path, (a, b) => false)
  {
    if |path| >= 2 {
      NoneMarked(path[..|path| - 1]);
    }
  }

  /** Everything lies to one side: above, below, left or right of every vertex. */
  ghost predicate Beyond(poly: seq<Point>, p: Point) {
    || (forall v :: v in poly ==> v.x <= p.x)
    || (forall v :: v in poly ==> p.x < v.x)
    || (forall v :: v in poly ==> v.y < p.y)
    || (forall v :: v in poly ==> p.y <= v.y)
  }

  /** No point beyond the bounding box is ever inside. */
  lemma NeverInsideBeyondTheBox(poly: seq<Point>, p: Point)
    requires Beyond(poly, p)
    ensures !Inside(poly, p)
  {
    if poly != [] {
      var path := poly + [poly[0]];
      var left := forall v :: v in poly ==> p.x < v.x;
      forall i, j | 0 <= i && j == i + 1 < |path|
        ensures Crosses(p, path[i], path[j]) == (left && Straddles(p, path[i], path[j]))
      {
        assert path[i] in poly && path[j] in poly;
        if Straddles(p, path[i], path[j]) {
          var t, x := Fraction(p, path[i], path[j]);
        }
      }
      if left {
        SameMarksSameParity(path, Crossed(p), Straddled(p));
        StraddlesEvenly(poly, p);
      } else {
        SameMarksSameParity(path, Crossed(p), (a, b) => false);
        NoneMarked(path);
      }
    }
  }

  lemma FourEdges(a: Point, b: Point, c: Point, d: Point, m: Marking)
    ensures Odd([a, b, c, d], m) == Xor(m(a, b), Xor(m(b, c), Xor(m(c, d), m(d, a))))
  {
    OneEdge(a, b, m);
    OneEdge(b, c, m);
    OneEdge(c, d, m);
    OneEdge(d, a, m);
    JoinPaths([a], b, [c, d, a], m);
    JoinPaths([b], c, [d, a], m);
    JoinPaths([c], d, [a], m);
    assert [a] + [b] + [c, d, a] == [a, b, c, d] + [a];
    assert [b] + [c] + [d, a] == [b] + [c, d, a];
    assert [c] + [d] + [a] == [c] + [d, a];
  }

  lemma UprightEdge(p: Point, a: Point, b: Point)
    requires a.x == b.x
    ensures Crosses(p, a, b) <==> Straddles(p, a, b) && p.x < a.x
  {
    if Straddles(p, a, b) {
      var t, x := Fraction(p, a, b);
    }
  }

  /** For an upright rectangle the answer is exactly membership, with the left and upper sides included. */
  lemma RectangleExactly(x0: real, y0: real, x1: real, y1: real, p: Point)
    requires x0 <= x1 && y0 <= y1
    ensures Inside([Point(x0, y0), Point(x1, y0), Point(x1, y1), Point(x0, y1)], p) <==>
            x0 <= p.x < x1 && y0 < p.y <= y1
  {
    var a, b, c, d := Point(x0, y0), Point(x1, y0), Point(x1, y1), Point(x0, y1);
    FourEdges(a, b, c, d, Crossed(p));
    UprightEdge(p, b, c);
    UprightEdge(p, d, a);
    assert !Straddles(p, a, b) && !Straddles(p, c, d);
  }

  // ---------------------------------------------------------------- half planes

  /** The value of a linear form; its sign says on which side of a line the point is. */
  function Side(nx: real, ny: real, c: real, v: Point): real {
    nx * v.x + ny * v.y - c
  }

  /** Along an edge a linear form takes values between those at the ends. */
  lemma SideAlong(nx: real, ny: real, c: real, a: Point, b: Point, t: real, v: Point)
    requires 0.0 <= t <= 1.0 && v.x == a.x + t * (b.x - a.x) && v.y == a.y + t * (b.y - a.y)
    requires Side(nx, ny, c, a) >= 0.0 && Side(nx, ny, c, b) >= 0.0
    ensures Side(nx, ny, c, v) >= 0.0
  {
    var sa, sb := Side(nx, ny, c, a), Side(nx, ny, c, b);
    var s := Slide(t, sa, sb);
    var dx, dy := b.x - a.x, b.y - a.y;
    assert sb - sa == nx * dx + ny * dy;
    Distribute(nx, ny, t, dx, dy);
    assert nx * v.x == nx * a.x + nx * (t * dx);
    assert ny * v.y == ny * a.y + ny * (t * dy);
  }

  lemma Distribute(nx: real, ny: real, t: real, dx: real, dy: real)
    ensures t * (nx * dx + ny * dy) == nx * (t * dx) + ny * (t * dy)
  {
    assert t * (nx * dx) == nx * (t * dx);
    assert t * (ny * dy) == ny * (t * dy);
  }

  /** A point separated by a line from every vertex, whatever the direction of the line, is never inside. */
  lemma NeverInsideBeyondALine(poly: seq<Point>, p: Point, nx: real, ny: real, c: real)
    requires Side(nx, ny, c, p) < 0.0 && forall v :: v in poly ==> Side(nx, ny, c, v) >= 0.0
    ensures !Inside(poly, p)
  {
    if poly != [] {
      var path := poly + [poly[0]];
      forall i, j | 0 <= i && j == i + 1 < |path|
        ensures Crosses(p, path[i], path[j]) == (nx > 0.0 && Straddles(p, path[i], path[j]))
      {
        assert path[i] in poly && path[j] in poly;
        if Straddles(p, path[i], path[j]) {
          MeetsOnOneSide(p, path[i], path[j], nx, ny, c);
        }
      }
      if nx > 0.0 {
        SameMarksSameParity(path, Crossed(p), Straddled(p));
        StraddlesEvenly(poly, p);
      } else {
        SameMarksSameParity(path, Crossed(p), (a, b) => false);
        NoneMarked(path);
      }
    }
  }

  lemma MeetsOnOneSide(p: Point, a: Point, b: Point, nx: real, ny: real, c: real)
    requires Side(nx, ny, c, p) < 0.0 && Side(nx, ny, c, a) >= 0.0 && Side(nx, ny, c, b) >= 0.0 && Straddles(p, a, b)
    ensures Crosses(p, a, b) == (nx > 0.0)
  {
    var t, x := Fraction(p, a, b);
    var v := Point(x, p.y);
    SideAlong(nx, ny, c, a, b, t, v);
    var d := x - p.x;
    assert nx * d == Side(nx, ny, c, v) - Side(nx, ny, c, p);
    SameSigns(nx, d);
  }

  lemma SameSigns(a: real, b: real)
    requires a * b > 0.0
    ensures (a > 0.0) == (b > 0.0)
  {
  }

  /** Positive when `p` is to the left of the directed line from `a` to `b`. */
  function Turn(a: Point, b: Point, p: Point): real {
    (b.x - a.x) * (p.y - a.y) - (b.y - a.y) * (p.x - a.x)
  }

  lemma SideIsTurn(a: Point, b: Point, v: Point)
    ensures Side(a.y - b.y, b.x - a.x, (a.y - b.y) * a.x + (b.x - a.x) * a.y, v) == Turn(a, b, v)
  {
    var nx, ny := a.y - b.y, b.x - a.x;
    assert nx * v.x - nx * a.x == nx * (v.x - a.x);
    assert ny * v.y - ny * a.y == ny * (v.y - a.y);
  }
}
