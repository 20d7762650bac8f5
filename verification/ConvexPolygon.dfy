/**
 Point in polygon for convex polygons: the crossing test of `Polygon::isPointInside` is membership, with one side of
 every edge counted in and the other out.
 */
module ConvexPolygon {
  import opened Plane
  import opened RayCrossing

  predicate GoesUp(p: Point, a: Point, b: Point) {
    a.y < p.y <= b.y
  }

  predicate GoesDown(p: Point, a: Point, b: Point) {
    b.y < p.y <= a.y
  }

  /** The ray crosses an edge that goes up from its left, and one that goes down from its right. */
  lemma CrossesFromASide(p: Point, a: Point, b: Point)
    ensures Crosses(p, a, b) <==>
            (GoesUp(p, a, b) && Turn(a, b, p) > 0.0) || (GoesDown(p, a, b) && Turn(a, b, p) < 0.0)
  {
    if Straddles(p, a, b) {
      var t, x := Fraction(p, a, b);
      var dx, dy, d := b.x - a.x, b.y - a.y, x - p.x;
      assert Turn(a, b, p) == dx * (t * dy) - dy * (p.x - a.x);
      assert dx * (t * dy) == dy * (t * dx);
      assert dy * d == dy * (a.x + t * dx - p.x) == dy * (t * dx) - dy * (p.x - a.x);
      ProductSign(dy, d, Turn(a, b, p));
    }
  }

  lemma ProductSign(a: real, b: real, ab: real)
    requires ab == a * b
    ensures a > 0.0 ==> (b > 0.0 <==> ab > 0.0)
    ensures a < 0.0 ==> (b > 0.0 <==> ab < 0.0)
  {
  }

  lemma Balance(ax: real, ay: real, bx: real, bv: real, cx: real, cy: real)
    ensures (bx * cy - bv * cx) * ay + (cx * ay - cy * ax) * bv + (ax * bv - ay * bx) * cy == 0.0
  {
    assert (bx * cy - bv * cx) * ay == bx * cy * ay - bv * cx * ay;
    assert (cx * ay - cy * ax) * bv == bv * cx * ay - cy * ax * bv;
    assert (ax * bv - ay * bx) * cy == cy * ax * bv - bx * cy * ay;
  }

  lemma TurnFromPoint(p: Point, a: Point, b: Point)
    ensures Turn(a, b, p) == (a.x - p.x) * (b.y - p.y) - (a.y - p.y) * (b.x - p.x)
  {
    var ax, ay, bx, bv := a.x - p.x, a.y - p.y, b.x - p.x, b.y - p.y;
    assert b.x - a.x == bx - ax && b.y - a.y == bv - ay;
    assert (bx - ax) * -ay - (bv - ay) * -ax == ax * bv - ay * bx;
  }

  lemma Cyclic(a: Point, b: Point, c: Point)
    ensures Turn(a, b, c) == Turn(b, c, a) == Turn(c, a, b)
  {
    TurnFromPoint(c, a, b);
    TurnFromPoint(a, b, c);
    TurnFromPoint(b, c, a);
  }

  lemma Opposite(a: Point, b: Point, p: Point)
    ensures Turn(b, a, p) == -Turn(a, b, p)
  {
    TurnFromPoint(p, a, b);
    TurnFromPoint(p, b, a);
  }

  /** The heights of three points over a fourth, weighted by the turns around it, cancel. */
  lemma Heights(a: Point, b: Point, c: Point, p: Point)
    ensures Turn(b, c, p) * (a.y - p.y) + Turn(c, a, p) * (b.y - p.y) + Turn(a, b, p) * (c.y - p.y) == 0.0
  {
    TurnFromPoint(p, a, b);
    TurnFromPoint(p, b, c);
    TurnFromPoint(p, c, a);
    Balance(a.x - p.x, a.y - p.y, b.x - p.x, b.y - p.y, c.x - p.x, c.y - p.y);
  }

  /** A vertex list whose every three vertices, taken in order, turn left. */
  ghost predicate StrictlyConvex(poly: seq<Point>) {
    |poly| >= 3 && forall i, j, k :: 0 <= i < j < k < |poly| ==> Turn(poly[i], poly[j], poly[k]) > 0.0
  }

  /** The vertices in order and back to the first. */
  function Closed(poly: seq<Point>): seq<Point>
    requires poly != []
  {
    poly + [poly[0]]
  }

  // ---------------------------------------------------------------- a horizontal line meets a convex polygon twice

  /** The turn of three of four points, from the turns around the first. */
  lemma FourTurns(bx: real, bv: real, cx: real, cy: real, dx: real, dy: real)
    ensures (cx - bx) * (dy - bv) - (cy - bv) * (dx - bx)
         == (bx * cy - bv * cx) + (cx * dy - cy * dx) - (bx * dy - bv * dx)
  {
    assert (cx - bx) * (dy - bv) == cx * dy - cx * bv - bx * dy + bx * bv;
    assert (cy - bv) * (dx - bx) == cy * dx - cy * bx - bv * dx + bv * bx;
  }

  lemma TurnOfOthers(a: Point, b: Point, c: Point, d: Point)
    ensures Turn(b, c, d) == Turn(a, b, c) + Turn(a, c, d) - Turn(a, b, d)
  {
    FourTurns(b.x - a.x, b.y - a.y, c.x - a.x, c.y - a.y, d.x - a.x, d.y - a.y);
    assert Turn(b, c, d) == ((c.x - a.x) - (b.x - a.x)) * ((d.y - a.y) - (b.y - a.y))
                          - ((c.y - a.y) - (b.y - a.y)) * ((d.x - a.x) - (b.x - a.x));
  }

  lemma SignsClash(u: real, v: real, w: real, z: real, ya: real, yb: real, yc: real, yd: real)
    requires u > 0.0 && v > 0.0 && w > 0.0 && z > 0.0
    requires u * yb + w * yd == v * yc + z * ya
    ensures !(ya < 0.0 && yc < 0.0 && yb >= 0.0 && yd >= 0.0)
    ensures !(yb < 0.0 && yd < 0.0 && ya >= 0.0 && yc >= 0.0)
  {
    assert ya < 0.0 ==> z * ya < 0.0;
    assert yc < 0.0 ==> v * yc < 0.0;
    assert yb < 0.0 ==> u * yb < 0.0;
    assert yd < 0.0 ==> w * yd < 0.0;
  }

  lemma Rebalance(u: real, v: real, w: real, z: real, ya: real, yb: real, yc: real, yd: real)
    requires u * (yb - ya) - v * (yc - ya) + w * (yd - ya) == 0.0 && z == w + u - v
    ensures u * yb + w * yd == v * yc + z * ya
  {
    assert z * ya == w * ya + u * ya - v * ya;
  }

  /** Four vertices in convex position do not alternate between the two sides of a horizontal line. */
  lemma NoAlternation(a: Point, b: Point, c: Point, d: Point, h: real)
    requires Turn(a, b, c) > 0.0 && Turn(a, b, d) > 0.0 && Turn(a, c, d) > 0.0 && Turn(b, c, d) > 0.0
    ensures !(a.y < h && c.y < h && h <= b.y && h <= d.y)
    ensures !(b.y < h && d.y < h && h <= a.y && h <= c.y)
  {
    Heights(b, c, d, a);
    Cyclic(a, b, c);
    Cyclic(a, c, d);
    Cyclic(a, b, d);
    Opposite(b, d, a);
    TurnOfOthers(a, b, c, d);
    var u, v, w, z := Turn(a, c, d), Turn(a, b, d), Turn(a, b, c), Turn(b, c, d);
    assert u * (b.y - a.y) - v * (c.y - a.y) + w * (d.y - a.y) == 0.0;
    Rebalance(u, v, w, z, a.y - h, b.y - h, c.y - h, d.y - h);
    SignsClash(u, v, w, z, a.y - h, b.y - h, c.y - h, d.y - h);
  }

  /** At most one edge goes up through a horizontal line. */
  lemma UpOnce(poly: seq<Point>, p: Point, i: nat, j: nat)
    requires StrictlyConvex(poly) && i < j < |poly|
    requires GoesUp(p, Closed(poly)[i], Closed(poly)[i + 1])
    ensures !GoesUp(p, Closed(poly)[j], Closed(poly)[j + 1])
  {
    if i + 1 < j {
      if j + 1 < |poly| {
        NoAlternation(poly[i], poly[i + 1], poly[j], poly[j + 1], p.y);
      } else if i > 0 {
        NoAlternation(poly[0], poly[i], poly[i + 1], poly[j], p.y);
      }
    }
  }

  lemma {:induction false} Climb(path: seq<Point>, s: nat, t: nat, h: real) returns (i: nat)
    requires s < t < |path| && path[s].y < h <= path[t].y
    ensures s <= i < t && path[i].y < h <= path[i + 1].y
    decreases t - s
  {
    if h <= path[s + 1].y {
      i := s;
    } else {
      i := Climb(path, s + 1, t, h);
    }
  }

  /** A closed walk with vertices on both sides of the line goes up through it somewhere. */
  lemma SomeEdgeGoesUp(poly: seq<Point>, p: Point, s: nat, t: nat) returns (i: nat)
    requires s < |poly| && t < |poly| && poly[s].y < p.y <= poly[t].y
    ensures i < |poly| && GoesUp(p, Closed(poly)[i], Closed(poly)[i + 1])
  {
    if s < t {
      i := Climb(Closed(poly), s, t, p.y);
    } else if p.y <= poly[0].y {
      i := Climb(Closed(poly), s, |poly|, p.y);
    } else {
      i := Climb(Closed(poly), 0, t, p.y);
    }
  }

  // ---------------------------------------------------------------- membership

  lemma NoMark(path: seq<Point>, marked: Marking)
    requires forall i, j :: 0 <= i && j == i + 1 < |path| ==> !marked(path[i], path[j])
    ensures !PathOdd(path, marked)
  {
    SameMarksSameParity(path, marked, (a, b) => false);
    NoneMarked(path);
  }

  lemma {:induction false} OneMark(path: seq<Point>, marked: Marking, k: nat)
    requires k + 1 < |path| && marked(path[k], path[k + 1])
    requires forall i, j :: 0 <= i && j == i + 1 < |path| && i != k ==> !marked(path[i], path[j])
    ensures PathOdd(path, marked)
    decreases |path|
  {
    var n := |path| - 1;
    if k == n - 1 {
      NoMark(path[..n], marked);
    } else {
      OneMark(path[..n], marked, k);
      var i, j := n - 1, n;
      assert !marked(path[i], path[j]);
    }
  }

  /** The edge keeps `p` on its left; a point on the edge counts as left of it where the edge goes down. */
  ghost predicate Keeps(p: Point, a: Point, b: Point) {
    (GoesUp(p, a, b) ==> Turn(a, b, p) > 0.0) && (GoesDown(p, a, b) ==> Turn(a, b, p) >= 0.0)
  }

  ghost predicate AllKeep(poly: seq<Point>, p: Point)
    requires poly != []
  {
    forall i, j :: 0 <= i && j == i + 1 < |Closed(poly)| ==> Keeps(p, Closed(poly)[i], Closed(poly)[j])
  }

  /** There are vertices on both sides of the horizontal line through `p`. */
  ghost predicate Met(poly: seq<Point>, p: Point) {
    exists s: nat, t: nat :: s < |poly| && t < |poly| && poly[s].y < p.y <= poly[t].y
  }

  /** Half-open membership: the line through `p` meets the polygon, and every edge it meets keeps `p`. */
  ghost predicate Member(poly: seq<Point>, p: Point)
    requires poly != []
  {
    Met(poly, p) && AllKeep(poly, p)
  }

  lemma LeftOfEdge(poly: seq<Point>, i: nat, k: nat)
    requires StrictlyConvex(poly) && i < |poly| && k < |poly|
    ensures Turn(Closed(poly)[i], Closed(poly)[i + 1], poly[k]) >= 0.0
  {
    var a, b := Closed(poly)[i], Closed(poly)[i + 1];
    if i + 1 < |poly| {
      if k < i {
        Cyclic(poly[k], a, b);
      }
    } else if 0 < k < i {
      Cyclic(b, poly[k], a);
    }
  }

  /** A point to the right of an edge of a convex polygon is not inside. */
  lemma BeyondAnEdge(poly: seq<Point>, p: Point, i: nat)
    requires StrictlyConvex(poly) && i < |poly| && Turn(Closed(poly)[i], Closed(poly)[i + 1], p) < 0.0
    ensures !Inside(poly, p)
  {
    var a, b := Closed(poly)[i], Closed(poly)[i + 1];
    var nx, ny := a.y - b.y, b.x - a.x;
    var c := nx * a.x + ny * a.y;
    forall v ensures Side(nx, ny, c, v) == Turn(a, b, v) {
      SideIsTurn(a, b, v);
    }
    forall v | v in poly ensures Side(nx, ny, c, v) >= 0.0 {
      var k :| 0 <= k < |poly| && poly[k] == v;
      LeftOfEdge(poly, i, k);
    }
    NeverInsideBeyondALine(poly, p, nx, ny, c);
  }

  lemma OtherEdge(poly: seq<Point>, p: Point, k: nat, i: nat)
    requires StrictlyConvex(poly) && k < |poly| && i < |poly| && i != k
    requires GoesUp(p, Closed(poly)[k], Closed(poly)[k + 1])
    ensures !GoesUp(p, Closed(poly)[i], Closed(poly)[i + 1])
  {
    if i < k {
      if GoesUp(p, Closed(poly)[i], Closed(poly)[i + 1]) {
        UpOnce(poly, p, i, k);
      }
    } else {
      UpOnce(poly, p, k, i);
    }
  }

  /** Where every edge that goes down keeps the point, only the edge that goes up can be crossed. */
  lemma OnlyUp(poly: seq<Point>, p: Point, k: nat, i: nat)
    requires StrictlyConvex(poly) && k < |poly| && i < |poly| && GoesUp(p, Closed(poly)[k], Closed(poly)[k + 1])
    requires GoesDown(p, Closed(poly)[i], Closed(poly)[i + 1]) ==> Turn(Closed(poly)[i], Closed(poly)[i + 1], p) >= 0.0
    ensures Crosses(p, Closed(poly)[i], Closed(poly)[i + 1]) <==>
            i == k && Turn(Closed(poly)[k], Closed(poly)[k + 1], p) > 0.0
  {
    CrossesFromASide(p, Closed(poly)[i], Closed(poly)[i + 1]);
    if i != k {
      OtherEdge(poly, p, k, i);
    }
  }

  ghost predicate DownKept(poly: seq<Point>, p: Point)
    requires poly != []
  {
    forall i, j :: 0 <= i && j == i + 1 < |Closed(poly)| && GoesDown(p, Closed(poly)[i], Closed(poly)[j]) ==>
      Turn(Closed(poly)[i], Closed(poly)[j], p) >= 0.0
  }

  /** Then the answer is read off that edge. */
  lemma UpEdgeDecides(poly: seq<Point>, p: Point, k: nat)
    requires StrictlyConvex(poly) && DownKept(poly, p) && k < |poly| && GoesUp(p, Closed(poly)[k], Closed(poly)[k + 1])
    ensures Inside(poly, p) <==> Turn(Closed(poly)[k], Closed(poly)[k + 1], p) > 0.0
  {
    var path := Closed(poly);
    forall i, j | 0 <= i && j == i + 1 < |path|
      ensures Crosses(p, path[i], path[j]) <==> i == k && Turn(path[k], path[k + 1], p) > 0.0
    {
      OnlyUp(poly, p, k, i);
    }
    if Turn(path[k], path[k + 1], p) > 0.0 {
      OneMark(path, Crossed(p), k);
    } else {
      NoMark(path, Crossed(p));
    }
  }

  lemma MemberIsInside(poly: seq<Point>, p: Point)
    requires StrictlyConvex(poly) && Member(poly, p)
    ensures Inside(poly, p)
  {
    var s: nat, t: nat :| s < |poly| && t < |poly| && poly[s].y < p.y <= poly[t].y;
    var k := SomeEdgeGoesUp(poly, p, s, t);
    var l := k + 1;
    assert Keeps(p, Closed(poly)[k], Closed(poly)[l]);
    UpEdgeDecides(poly, p, k);
  }

  lemma InsideIsMet(poly: seq<Point>, p: Point)
    requires poly != [] && Inside(poly, p)
    ensures Met(poly, p)
  {
    if forall v :: v in poly ==> p.y <= v.y {
      NeverInsideBeyondTheBox(poly, p);
    } else if forall v :: v in poly ==> v.y < p.y {
      NeverInsideBeyondTheBox(poly, p);
    } else {
      var u, v :| u in poly && v in poly && u.y < p.y <= v.y;
      var s: nat, t: nat :| s < |poly| && t < |poly| && poly[s] == u && poly[t] == v;
    }
  }

  lemma InsideIsDownKept(poly: seq<Point>, p: Point)
    requires StrictlyConvex(poly) && Inside(poly, p)
    ensures DownKept(poly, p)
  {
    forall i, j | 0 <= i && j == i + 1 < |Closed(poly)| ensures Turn(Closed(poly)[i], Closed(poly)[j], p) >= 0.0 {
      if Turn(Closed(poly)[i], Closed(poly)[j], p) < 0.0 {
        BeyondAnEdge(poly, p, i);
      }
    }
  }

  lemma InsideIsMember(poly: seq<Point>, p: Point)
    requires StrictlyConvex(poly) && Inside(poly, p)
    ensures Member(poly, p)
  {
    InsideIsMet(poly, p);
    InsideIsDownKept(poly, p);
    forall i, j | 0 <= i && j == i + 1 < |Closed(poly)| ensures Keeps(p, Closed(poly)[i], Closed(poly)[j]) {
      if GoesUp(p, Closed(poly)[i], Closed(poly)[j]) {
        UpEdgeDecides(poly, p, i);
      }
    }
  }

  /** For every strictly convex polygon and every point the test is membership, half-open as stated. */
  lemma ConvexExactly(poly: seq<Point>, p: Point)
    requires StrictlyConvex(poly)
    ensures Inside(poly, p) <==> Member(poly, p)
  {
    if Member(poly, p) {
      MemberIsInside(poly, p);
    }
    if Inside(poly, p) {
      InsideIsMember(poly, p);
    }
  }

  // ---------------------------------------------------------------- off the boundary

  /** `p` lies to the left of every edge. */
  ghost predicate LeftOfAll(poly: seq<Point>, p: Point)
    requires poly != []
  {
    forall i, j :: 0 <= i && j == i + 1 < |Closed(poly)| ==> Turn(Closed(poly)[i], Closed(poly)[j], p) > 0.0
  }

  /** `p` lies to the right of some edge. */
  ghost predicate RightOfSome(poly: seq<Point>, p: Point)
    requires poly != []
  {
    exists i, j :: 0 <= i && j == i + 1 < |Closed(poly)| && Turn(Closed(poly)[i], Closed(poly)[j], p) < 0.0
  }

  /** All vertices lie strictly on one side of the horizontal line through `p`. */
  ghost predicate OneSided(poly: seq<Point>, p: Point) {
    (forall v :: v in poly ==> v.y > p.y) || (forall v :: v in poly ==> v.y < p.y)
  }

  lemma WeightedSign(x: real, y: real, z: real, a: real, b: real, c: real)
    requires x > 0.0 && y > 0.0 && x * a + y * c == z * b
    requires (a > 0.0 && b > 0.0 && c > 0.0) || (a < 0.0 && b < 0.0 && c < 0.0)
    ensures z > 0.0
  {
    assert a > 0.0 ==> x * a > 0.0 && y * c > 0.0;
    assert a < 0.0 ==> x * a < 0.0 && y * c < 0.0;
  }

  /** Seen from a point with all three on one side of its horizontal line, turning left is transitive. */
  lemma TurnTransitive(a: Point, b: Point, c: Point, p: Point)
    requires Turn(a, b, p) > 0.0 && Turn(b, c, p) > 0.0
    requires (a.y > p.y && b.y > p.y && c.y > p.y) || (a.y < p.y && b.y < p.y && c.y < p.y)
    ensures Turn(a, c, p) > 0.0
  {
    Heights(a, b, c, p);
    Opposite(a, c, p);
    WeightedSign(Turn(b, c, p), Turn(a, b, p), Turn(a, c, p), a.y - p.y, b.y - p.y, c.y - p.y);
  }

  lemma {:induction false} Fan(poly: seq<Point>, p: Point, k: nat)
    requires 0 < k < |poly| && LeftOfAll(poly, p) && OneSided(poly, p)
    ensures Turn(poly[0], poly[k], p) > 0.0
  {
    var i := k - 1;
    assert Turn(Closed(poly)[i], Closed(poly)[k], p) > 0.0;
    if i > 0 {
      Fan(poly, p, i);
      assert poly[0] in poly && poly[i] in poly && poly[k] in poly;
      TurnTransitive(poly[0], poly[i], poly[k], p);
    }
  }

  lemma NotOneSided(poly: seq<Point>, p: Point)
    requires |poly| >= 2 && LeftOfAll(poly, p)
    ensures !OneSided(poly, p)
  {
    var i, j := |poly| - 1, |poly|;
    assert Turn(Closed(poly)[i], Closed(poly)[j], p) > 0.0;
    Opposite(poly[0], poly[i], p);
    if OneSided(poly, p) {
      Fan(poly, p, i);
    }
  }

  /** A vertex between two others at or above the line is above it. */
  lemma MiddleIsAbove(a: Point, b: Point, c: Point, p: Point)
    requires Turn(a, b, p) > 0.0 && Turn(b, c, p) > 0.0 && p.y <= a.y && p.y <= b.y && p.y <= c.y
    ensures p.y < b.y
  {
    if b.y == p.y {
      Heights(a, b, c, p);
      SumOfProducts(Turn(b, c, p), Turn(a, b, p), a.y - p.y, c.y - p.y);
      TurnFromPoint(p, a, b);
    }
  }

  lemma SumOfProducts(x: real, y: real, a: real, c: real)
    requires x > 0.0 && y > 0.0 && a >= 0.0 && c >= 0.0 && x * a + y * c == 0.0
    ensures a == 0.0 && c == 0.0
  {
    assert a > 0.0 ==> x * a > 0.0;
    assert c > 0.0 ==> y * c > 0.0;
  }

  lemma VertexIsAbove(poly: seq<Point>, p: Point, k: nat)
    requires |poly| >= 2 && LeftOfAll(poly, p) && k < |poly| && forall v :: v in poly ==> p.y <= v.y
    ensures p.y < poly[k].y
  {
    var path, l := Closed(poly), k + 1;
    var i, j := if k == 0 then |poly| - 1 else k - 1, if k == 0 then |poly| else k;
    assert path[i] in poly && path[l] in poly;
    assert Turn(path[i], path[j], p) > 0.0 && Turn(path[k], path[l], p) > 0.0;
    MiddleIsAbove(path[i], path[k], path[l], p);
  }

  /** A point to the left of every edge has vertices on both sides of its horizontal line. */
  lemma LeftOfAllIsMet(poly: seq<Point>, p: Point)
    requires |poly| >= 2 && LeftOfAll(poly, p)
    ensures Met(poly, p)
  {
    NotOneSided(poly, p);
    if forall v :: v in poly ==> p.y <= v.y {
      forall v | v in poly ensures v.y > p.y {
        var k :| 0 <= k < |poly| && poly[k] == v;
        VertexIsAbove(poly, p, k);
      }
    }
    var u, v :| u in poly && v in poly && u.y < p.y <= v.y;
    var s: nat, t: nat :| s < |poly| && t < |poly| && poly[s] == u && poly[t] == v;
  }

  /** Off its boundary, the answer for a convex polygon is exactly whether the point lies to the left of every edge. */
  lemma ConvexOffBoundary(poly: seq<Point>, p: Point)
    requires StrictlyConvex(poly) && (LeftOfAll(poly, p) || RightOfSome(poly, p))
    ensures Inside(poly, p) <==> LeftOfAll(poly, p)
  {
    if LeftOfAll(poly, p) {
      LeftOfAllIsMet(poly, p);
      MemberIsInside(poly, p);
    } else {
      var i, j :| 0 <= i && j == i + 1 < |Closed(poly)| && Turn(Closed(poly)[i], Closed(poly)[j], p) < 0.0;
      BeyondAnEdge(poly, p, i);
    }
  }

  /** The same for vertices listed clockwise. */
  lemma ClockwiseExactly(poly: seq<Point>, p: Point)
    requires StrictlyConvex(Reversed(poly))
    ensures Inside(poly, p) <==> Member(Reversed(poly), p)
  {
    InsideIsAboutTheCurve(poly, 0, p);
    ConvexExactly(Reversed(poly), p);
  }
}
