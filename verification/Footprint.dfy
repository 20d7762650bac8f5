/**
 The radii of a robot footprint (`calculateMinAndMaxDistances`) and the distance of a point from a segment
 (`distanceToLine`), in squared distances: the root the source takes of each is increasing.
 */
module Footprint {
  import opened Grid
  import opened Plane

  // ---------------------------------------------------------------- one segment

  /** The point a fraction `t` of the way from `a` to `b`. */
  function Along(a: Point, b: Point, t: real): Point {
    Point(a.x + t * (b.x - a.x), a.y + t * (b.y - a.y))
  }

  /** A point relative to the start of a segment, and the segment's direction. */
  datatype Relative = Relative(ax: real, ay: real, c: real, d: real) {
    function Off(t: real): real {
      Square(ax - t * c) + Square(ay - t * d)
    }

    function Dot(): real {
      ax * c + ay * d
    }

    function LengthSquared(): real {
      c * c + d * d
    }
  }

  function From(p: Point, a: Point, b: Point): Relative {
    Relative(p.x - a.x, p.y - a.y, b.x - a.x, b.y - a.y)
  }

  /** The squared distance of `p` from the point a fraction `t` of the way. */
  function Off(p: Point, a: Point, b: Point, t: real): real {
    From(p, a, b).Off(t)
  }

  lemma OffIsDistance(p: Point, a: Point, b: Point, t: real)
    ensures Off(p, a, b, t) == DistanceSquared(p, Along(a, b, t))
  {
    var near := Along(a, b, t);
    assert p.x - near.x == (p.x - a.x) - t * (b.x - a.x);
    assert p.y - near.y == (p.y - a.y) - t * (b.y - a.y);
  }

  /** `d` is the squared distance of `p` from the whole segment: reached on it, and nowhere undercut. */
  ghost predicate IsDistance(p: Point, a: Point, b: Point, d: real) {
    && (exists t :: 0.0 <= t <= 1.0 && d == Off(p, a, b, t))
    && forall s :: 0.0 <= s <= 1.0 ==> d <= Off(p, a, b, s)
  }

  /** The squared distance as a polynomial in the fraction. */
  lemma Parabola(w: Relative, s: real)
    ensures w.Off(s) == Square(w.ax) + Square(w.ay) - 2.0 * (s * w.Dot()) + (s * s) * w.LengthSquared()
  {
    OneAxis(w.ax, w.c, s, w.ax - s * w.c);
    OneAxis(w.ay, w.d, s, w.ay - s * w.d);
    Distribute(s, w.ax * w.c, w.ay * w.d);
    Distribute(s * s, w.c * w.c, w.d * w.d);
  }

  lemma OneAxis(a: real, c: real, s: real, u: real)
    requires u == a - s * c
    ensures Square(u) == Square(a) - 2.0 * (s * (a * c)) + (s * s) * (c * c)
  {
    var sc := s * c;
    assert u * u == a * a - 2.0 * (a * sc) + sc * sc;
    assert sc * sc == (s * s) * (c * c);
    assert a * sc == s * (a * c);
  }

  lemma Distribute(s: real, m: real, n: real)
    ensures s * (m + n) == s * m + s * n
  {
  }

  /** How the distance varies along a line whose nearest point is a fraction `q` of the way. */
  lemma Difference(w: Relative, q: real, s: real, t: real, x: real)
    requires q * w.LengthSquared() == w.Dot() && x == (s - t) * (s + t - 2.0 * q)
    ensures w.Off(s) - w.Off(t) == w.LengthSquared() * x
  {
    Parabola(w, s);
    Parabola(w, t);
    Collect(w.LengthSquared(), q, s, t, Square(w.ax) + Square(w.ay), w.Dot(), x);
  }

  lemma Collect(len: real, q: real, s: real, t: real, base: real, dot: real, x: real)
    requires dot == q * len && x == (s - t) * (s + t - 2.0 * q)
    ensures (base - 2.0 * (s * dot) + (s * s) * len) - (base - 2.0 * (t * dot) + (t * t) * len) == len * x
  {
    var u, v, y, z := s * s, t * t, s * q, t * q;
    assert x == u - v - 2.0 * y + 2.0 * z;
    assert s * dot == y * len;
    assert t * dot == z * len;
    assert len * (u - v - 2.0 * y + 2.0 * z) == u * len - v * len - 2.0 * (y * len) + 2.0 * (z * len);
  }

  lemma SameSignProduct(u: real, v: real) returns (x: real)
    requires (u >= 0.0 && v >= 0.0) || (u <= 0.0 && v <= 0.0)
    ensures x == u * v && x >= 0.0
  {
    if u >= 0.0 && v >= 0.0 {
      x := NonNegative(u, v);
    } else {
      x := NonNegative(-u, -v);
    }
  }

  /** Nearer to the foot of the perpendicular, and on the same side or as far on the other, is no farther away. */
  lemma NotFarther(w: Relative, q: real, t: real, e: real)
    requires w.LengthSquared() >= 0.0 && q * w.LengthSquared() == w.Dot()
    requires (t >= e && t + e <= 2.0 * q) || (t <= e && t + e >= 2.0 * q)
    ensures w.Off(t) <= w.Off(e)
  {
    var x := SameSignProduct(e - t, e + t - 2.0 * q);
    Difference(w, q, e, t, x);
    var y := NonNegative(w.LengthSquared(), x);
  }

  lemma Length(p: Point, a: Point, b: Point)
    ensures From(p, a, b).LengthSquared() >= 0.0 && (From(p, a, b).LengthSquared() == 0.0 <==> a == b)
  {
    var x := SquareOf(b.x - a.x);
    var y := SquareOf(b.y - a.y);
  }

  /** The end of the segment beyond which the parameter lies, or the point of the segment it names. */
  function NearPoint(a: Point, b: Point, param: real): Point {
    if param < 0.0 then a
    else if param > 1.0 then b
    else Point(a.x + param * (b.x - a.x), a.y + param * (b.y - a.y))
  }

  /** `distanceToLine`; a segment without length gives no number, and no comparison with it holds. */
  function DistanceToLine(p: Point, a: Point, b: Point): Option<real> {
    var dot, lenSq := From(p, a, b).Dot(), From(p, a, b).LengthSquared();
    if lenSq == 0.0 then None else Some(DistanceSquared(p, NearPoint(a, b, dot / lenSq)))
  }

  /** It is the distance from the whole segment, and a number exactly when the segment has length. */
  lemma DistanceToLineIsNearest(p: Point, a: Point, b: Point)
    ensures DistanceToLine(p, a, b).None? <==> a == b
    ensures a != b ==> IsDistance(p, a, b, DistanceToLine(p, a, b).value)
  {
    Length(p, a, b);
    if a != b {
      var t := Foot(p, a, b);
    }
  }

  /** The fraction at which the segment comes nearest: that of the line, clamped to the segment. */
  lemma Foot(p: Point, a: Point, b: Point) returns (t: real)
    requires a != b
    ensures 0.0 <= t <= 1.0 && DistanceToLine(p, a, b) == Some(Off(p, a, b, t))
    ensures forall s :: 0.0 <= s <= 1.0 ==> Off(p, a, b, t) <= Off(p, a, b, s)
  {
    Length(p, a, b);
    var q := FootOfLine(From(p, a, b));
    t := if q < 0.0 then 0.0 else if q > 1.0 then 1.0 else q;
    NearestFraction(From(p, a, b), q, t);
    NearestPoint(a, b, q, t);
    OffIsDistance(p, a, b, t);
  }

  lemma FootOfLine(w: Relative) returns (q: real)
    requires w.LengthSquared() > 0.0
    ensures q == w.Dot() / w.LengthSquared() && q * w.LengthSquared() == w.Dot()
  {
    q := w.Dot() / w.LengthSquared();
  }

  lemma NearestFraction(w: Relative, q: real, t: real)
    requires w.LengthSquared() > 0.0 && q * w.LengthSquared() == w.Dot()
    requires t == if q < 0.0 then 0.0 else if q > 1.0 then 1.0 else q
    ensures forall s :: 0.0 <= s <= 1.0 ==> w.Off(t) <= w.Off(s)
  {
    forall s | 0.0 <= s <= 1.0 ensures w.Off(t) <= w.Off(s) {
      NotFarther(w, q, t, s);
    }
  }

  lemma NearestPoint(a: Point, b: Point, q: real, t: real)
    requires t == if q < 0.0 then 0.0 else if q > 1.0 then 1.0 else q
    ensures NearPoint(a, b, q) == Along(a, b, t)
  {
    if q < 0.0 || q > 1.0 {
      AlongToTheEnds(a, b);
    }
  }

  lemma AlongToTheEnds(a: Point, b: Point)
    ensures Along(a, b, 0.0) == a && Along(a, b, 1.0) == b
  {
  }

  /** Every point of an edge is at most as far away as one of its ends. */
  lemma EndsAreFarthest(p: Point, a: Point, b: Point, t: real)
    requires 0.0 <= t <= 1.0
    ensures Off(p, a, b, t) <= Off(p, a, b, 0.0) || Off(p, a, b, t) <= Off(p, a, b, 1.0)
  {
    Length(p, a, b);
    var w := From(p, a, b);
    if a == b {
      assert w.Off(t) == w.Off(0.0);
    } else {
      var q := w.Dot() / w.LengthSquared();
      if t <= 2.0 * q {
        NotFarther(w, q, t, 0.0);
      } else {
        NotFarther(w, q, t, 1.0);
      }
    }
  }

  lemma NeverNegative(p: Point, a: Point)
    ensures DistanceSquared(p, a) >= 0.0
  {
    var x := SquareOf(p.x - a.x);
    var y := SquareOf(p.y - a.y);
  }

  lemma AtTheEnds(p: Point, a: Point, b: Point)
    ensures Off(p, a, b, 0.0) == DistanceSquared(p, a) && Off(p, a, b, 1.0) == DistanceSquared(p, b)
  {
    OffIsDistance(p, a, b, 0.0);
    OffIsDistance(p, a, b, 1.0);
    AlongToTheEnds(a, b);
  }

  // ---------------------------------------------------------------- the radii

  const CENTRE := Point(0.0, 0.0)

  /** The vertex after the `i`-th; the last edge closes the polygon. */
  function Next(n: nat, i: nat): nat
    requires i < n
  {
    if i + 1 < n then i + 1 else 0
  }

  /** The squared distance of the centre from the point a fraction `t` along the `i`-th edge. */
  function EdgeOff(footprint: seq<Point>, i: nat, t: real): real
    requires i < |footprint|
  {
    Off(CENTRE, footprint[i], footprint[Next(|footprint|, i)], t)
  }

  /** The distances along the edges of a footprint. */
  type Profile = (nat, real) -> real

  ghost predicate IsProfile(off: Profile, footprint: seq<Point>) {
    forall i: nat, t {:trigger EdgeOff(footprint, i, t)} :: i < |footprint| ==> off(i, t) == EdgeOff(footprint, i, t)
  }

  ghost predicate NoneBelow(off: Profile, i: nat, d: real) {
    forall t :: 0.0 <= t <= 1.0 ==> d <= off(i, t)
  }

  ghost predicate ReachedAt(off: Profile, i: nat, d: real) {
    exists t :: 0.0 <= t <= 1.0 && d == off(i, t)
  }

  /** Some point of one of the first `n` edges lies at this distance. */
  ghost predicate Reached(off: Profile, n: nat, d: real) {
    exists i: nat :: i < n && ReachedAt(off, i, d)
  }

  /** The `i`-th edge and the vertex it starts from. */
  method VisitEdge(footprint: seq<Point>, i: nat, ghost off: Profile) returns (near: real, far: real)
    requires i < |footprint| && IsProfile(off, footprint)
    ensures NoneBelow(off, i, near) && ReachedAt(off, i, near)
    ensures ReachedAt(off, i, far) && off(i, 0.0) <= far && 0.0 <= far
  {
    var a, b := footprint[i], footprint[Next(|footprint|, i)];
    var vertexDist := DistanceSquared(CENTRE, a);
    var edgeDist := DistanceToLine(CENTRE, a, b);
    DistanceToLineIsNearest(CENTRE, a, b);
    near, far := vertexDist, vertexDist;
    if edgeDist.Some? {
      near := if edgeDist.value < vertexDist then edgeDist.value else vertexDist;
      far := if vertexDist < edgeDist.value then edgeDist.value else vertexDist;
    }
    EdgeFound(footprint, i, off, edgeDist, near, far);
  }

  lemma EdgeFound(footprint: seq<Point>, i: nat, off: Profile, edgeDist: Option<real>, near: real, far: real)
    requires i < |footprint| && IsProfile(off, footprint)
    requires var a, b := footprint[i], footprint[Next(|footprint|, i)];
      && (edgeDist.None? <==> a == b) && (edgeDist.Some? ==> IsDistance(CENTRE, a, b, edgeDist.value))
      && var v := DistanceSquared(CENTRE, a);
         && near == (if edgeDist.Some? && edgeDist.value < v then edgeDist.value else v)
         && far == (if edgeDist.Some? && v < edgeDist.value then edgeDist.value else v)
    ensures NoneBelow(off, i, near) && ReachedAt(off, i, near)
    ensures ReachedAt(off, i, far) && off(i, 0.0) <= far && 0.0 <= far
  {
    var a, b := footprint[i], footprint[Next(|footprint|, i)];
    AtTheEnds(CENTRE, a, b);
    NeverNegative(CENTRE, a);
    assert off(i, 0.0) == EdgeOff(footprint, i, 0.0);
    if edgeDist.Some? {
      var t :| 0.0 <= t <= 1.0 && edgeDist.value == Off(CENTRE, a, b, t);
      assert off(i, t) == EdgeOff(footprint, i, t);
      forall s | 0.0 <= s <= 1.0 ensures near <= off(i, s) {
        assert off(i, s) == EdgeOff(footprint, i, s);
      }
    } else {
      forall s | 0.0 <= s <= 1.0 ensures near <= off(i, s) {
        assert off(i, s) == EdgeOff(footprint, i, s);
        OffIsDistance(CENTRE, a, b, s);
        assert Along(a, b, s) == a;
      }
    }
  }

  /** What is known when the first `n` edges have been visited; before the first, the largest number and zero. */
  ghost predicate Covers(off: Profile, n: nat, minDist: Option<real>, maxDist: real) {
    if n == 0 then minDist == None && maxDist == 0.0
    else
      && minDist.Some? && Reached(off, n, minDist.value) && Reached(off, n, maxDist)
      && forall j: nat :: j < n ==> NoneBelow(off, j, minDist.value) && off(j, 0.0) <= maxDist
  }

  /** Take one more edge into account. */
  method Include(minDist: Option<real>, maxDist: real, near: real, far: real, ghost off: Profile, ghost n: nat)
    returns (minDist': Option<real>, maxDist': real)
    requires Covers(off, n, minDist, maxDist) && far >= 0.0
    requires NoneBelow(off, n, near) && ReachedAt(off, n, near) && ReachedAt(off, n, far) && off(n, 0.0) <= far
    ensures Covers(off, n + 1, minDist', maxDist')
  {
    minDist' := if minDist.Some? && !(near < minDist.value) then minDist else Some(near);
    maxDist' := if maxDist < far then far else maxDist;
    if n > 0 {
      ghost var i: nat :| i < n && ReachedAt(off, i, minDist.value);
      ghost var k: nat :| k < n && ReachedAt(off, k, maxDist);
    }
    forall j: nat | j < n + 1 ensures NoneBelow(off, j, minDist'.value) && off(j, 0.0) <= maxDist' {
      assert j < n ==> NoneBelow(off, j, minDist.value);
      forall t | 0.0 <= t <= 1.0 ensures minDist'.value <= off(j, t) {
      }
    }
  }

  /** All edges in turn, the closing one last. */
  method VisitEdges(footprint: seq<Point>, ghost off: Profile) returns (minDist: Option<real>, maxDist: real)
    requires IsProfile(off, footprint)
    ensures |footprint| <= 2 ==> minDist == None && maxDist == 0.0
    ensures |footprint| > 2 ==>
      && minDist.Some? && Reached(off, |footprint|, minDist.value) && Reached(off, |footprint|, maxDist)
      && forall i: nat, t :: i < |footprint| && 0.0 <= t <= 1.0 ==> minDist.value <= off(i, t) <= maxDist
  {
    minDist, maxDist := None, 0.0;
    if |footprint| <= 2 {
      return;
    }
    for i := 0 to |footprint| - 1
      invariant Covers(off, i, minDist, maxDist)
    {
      var near, far := VisitEdge(footprint, i, off);
      minDist, maxDist := Include(minDist, maxDist, near, far, off, i);
    }
    var near, far := VisitEdge(footprint, |footprint| - 1, off);
    minDist, maxDist := Include(minDist, maxDist, near, far, off, |footprint| - 1);
    AllBelow(footprint, off, maxDist);
    forall i: nat, t | i < |footprint| && 0.0 <= t <= 1.0 ensures minDist.value <= off(i, t) {
      assert NoneBelow(off, i, minDist.value);
    }
  }

  /** Edges are nowhere farther away than their vertices. */
  lemma AllBelow(footprint: seq<Point>, off: Profile, far: real)
    requires IsProfile(off, footprint) && forall j: nat :: j < |footprint| ==> off(j, 0.0) <= far
    ensures forall i: nat, t :: i < |footprint| && 0.0 <= t <= 1.0 ==> off(i, t) <= far
  {
    forall i: nat, t | i < |footprint| && 0.0 <= t <= 1.0 ensures off(i, t) <= far {
      EdgeBelow(footprint, off, i, t);
      assert off(Next(|footprint|, i), 0.0) <= far;
    }
  }

  lemma EdgeBelow(footprint: seq<Point>, off: Profile, i: nat, t: real)
    requires IsProfile(off, footprint) && i < |footprint| && 0.0 <= t <= 1.0
    ensures off(i, t) <= off(i, 0.0) || off(i, t) <= off(Next(|footprint|, i), 0.0)
  {
    var k := Next(|footprint|, i);
    var a, b, c := footprint[i], footprint[k], footprint[Next(|footprint|, k)];
    assert off(i, t) == EdgeOff(footprint, i, t);
    assert off(i, 0.0) == EdgeOff(footprint, i, 0.0);
    assert off(k, 0.0) == EdgeOff(footprint, k, 0.0);
    EndsAreFarthest(CENTRE, a, b, t);
    AtTheEnds(CENTRE, a, b);
    AtTheEnds(CENTRE, b, c);
  }

  lemma ProfileOf(footprint: seq<Point>) returns (off: Profile)
    ensures IsProfile(off, footprint)
  {
    off := (i: nat, t: real) => if i < |footprint| then EdgeOff(footprint, i, t) else 0.0;
  }

  /** The point a fraction `t` along the edge from the `i`-th vertex to the next, or from the last to the first. */
  ghost predicate OnEdge(footprint: seq<Point>, i: nat, t: real, q: Point) {
    && i < |footprint| && 0.0 <= t <= 1.0
    && var a, b := footprint[i], footprint[if i + 1 == |footprint| then 0 else i + 1];
       q.x == a.x + t * (b.x - a.x) && q.y == a.y + t * (b.y - a.y)
  }

  ghost predicate OnOutline(footprint: seq<Point>, q: Point) {
    exists i: nat, t :: OnEdge(footprint, i, t, q)
  }

  ghost predicate AtSquared(q: Point, d: real) {
    q.x * q.x + q.y * q.y == d
  }

  lemma OffOfPoint(footprint: seq<Point>, i: nat, t: real, q: Point)
    requires OnEdge(footprint, i, t, q)
    ensures AtSquared(q, EdgeOff(footprint, i, t))
  {
    var a, b := footprint[i], footprint[Next(|footprint|, i)];
    assert q == Along(a, b, t);
    OffIsDistance(CENTRE, a, b, t);
  }

  /** Every point of the outline lies between the radii, and both are reached. */
  ghost predicate AreRadii(footprint: seq<Point>, low: real, high: real) {
    && (forall q, d :: OnOutline(footprint, q) && AtSquared(q, d) ==> low <= d <= high)
    && (exists q :: OnOutline(footprint, q) && AtSquared(q, low))
    && (exists q :: OnOutline(footprint, q) && AtSquared(q, high))
  }

  lemma FoundRadii(footprint: seq<Point>, off: Profile, low: real, high: real)
    requires IsProfile(off, footprint) && Reached(off, |footprint|, low) && Reached(off, |footprint|, high)
    requires forall i: nat, t :: i < |footprint| && 0.0 <= t <= 1.0 ==> low <= off(i, t) <= high
    ensures AreRadii(footprint, low, high)
  {
    var p := FoundPoint(footprint, off, low);
    var q := FoundPoint(footprint, off, high);
    forall q, d | OnOutline(footprint, q) && AtSquared(q, d) ensures low <= d <= high {
      var i: nat, t :| OnEdge(footprint, i, t, q);
      OffOfPoint(footprint, i, t, q);
      assert off(i, t) == EdgeOff(footprint, i, t);
    }
  }

  lemma FoundPoint(footprint: seq<Point>, off: Profile, d: real) returns (q: Point)
    requires IsProfile(off, footprint) && Reached(off, |footprint|, d)
    ensures OnOutline(footprint, q) && AtSquared(q, d)
  {
    var i: nat :| i < |footprint| && ReachedAt(off, i, d);
    var t :| 0.0 <= t <= 1.0 && d == off(i, t);
    assert d == EdgeOff(footprint, i, t);
    q := Along(footprint[i], footprint[Next(|footprint|, i)], t);
    assert OnEdge(footprint, i, t, q);
    OffOfPoint(footprint, i, t, q);
  }

  /**
   `calculateMinAndMaxDistances`: the smallest and largest distance of the footprint's outline, the closing edge
   included. Fewer than three vertices give the largest number and zero.
   */
  method CalculateMinAndMaxDistances(footprint: seq<Point>) returns (minDist: Option<real>, maxDist: real)
    ensures |footprint| <= 2 ==> minDist == None && maxDist == 0.0
    ensures |footprint| > 2 ==> minDist.Some? && AreRadii(footprint, minDist.value, maxDist)
  {
    ghost var off := ProfileOf(footprint);
    minDist, maxDist := VisitEdges(footprint, off);
    if |footprint| > 2 {
      FoundRadii(footprint, off, minDist.value, maxDist);
    }
  }
}
