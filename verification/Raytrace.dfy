/** Line rasterisation on the grid (`Costmap2D::raytraceLine`, `bresenham2D`, `PolygonOutlineCells`). */
module Raytrace {
  import opened Grid

  datatype MapLocation = MapLocation(x: nat, y: nat)

  /** `indexToCells`, for the offsets of a grid with rows of `w` cells. */
  function ToCell(offset: int, w: nat): MapLocation {
    if w == 0 || offset < 0 then MapLocation(0, 0)
    else
      var y := offset / w;
      assert offset == y * w + offset % w;
      MapLocation(offset - y * w, y)
  }

  /** The functor `PolygonOutlineCells`. */
  function Gather(w: nat): int -> MapLocation {
    (offset: int) => ToCell(offset, w)
  }

  /** The minor steps taken and the error term after `i` steps along the dominant axis. */
  function Walk(da: nat, db: nat, i: nat): (int, int) {
    if i == 0 then (0, da / 2)
    else
      var (k, error) := Walk(da, db, i - 1);
      if error + db >= da then (k + 1, error + db - da) else (k, error + db)
  }

  function Minor(da: nat, db: nat, i: nat): int {
    Walk(da, db, i).0
  }

  /** The error term is what the line is ahead of `k` minor steps after `i` dominant ones, and stays in range. */
  ghost predicate OnLine(da: nat, db: nat, i: nat, k: int, error: int) {
    0 <= k && 0 <= error < da && error == da / 2 + i * db - k * da
  }

  lemma StepOnLine(da: nat, db: nat, i: nat, k: int, error: int)
    requires db <= da && OnLine(da, db, i, k, error)
    ensures if error + db >= da then OnLine(da, db, i + 1, k + 1, error + db - da)
            else OnLine(da, db, i + 1, k, error + db)
  {
    assert (i + 1) * db == i * db + db;
    assert (k + 1) * da == k * da + da;
  }

  lemma {:induction false} WalkIsOnLine(da: nat, db: nat, i: nat)
    requires db <= da && 0 < da
    ensures OnLine(da, db, i, Walk(da, db, i).0, Walk(da, db, i).1)
  {
    if i > 0 {
      var (k, error) := Walk(da, db, i - 1);
      WalkIsOnLine(da, db, i - 1);
      StepOnLine(da, db, i - 1, k, error);
    }
  }

  lemma Cancel(a: int, b: int, c: int)
    requires c > 0 && a * c < (b + 1) * c
    ensures a <= b
  {
  }

  /** An error term in range pins the number of minor steps. */
  lemma MinorInRange(da: nat, db: nat, i: nat, k: int, error: int)
    requires error == da / 2 + i * db - k * da && 0 <= error < da && i <= da
    ensures k <= db
    ensures i == da ==> k == db
  {
    assert i * db <= da * db;
    assert (db + 1) * da == da * db + da;
    Cancel(k, db, da);
    if i == da {
      assert (k + 1) * da == k * da + da;
      Cancel(db, k, da);
    }
  }

  /** The minor axis never overshoots, and has arrived when the dominant axis has. */
  lemma MinorArrives(da: nat, db: nat, i: nat)
    requires db <= da && i <= da
    ensures 0 <= Minor(da, db, i) <= db
    ensures i == da ==> Minor(da, db, i) == db
  {
    if da > 0 {
      WalkIsOnLine(da, db, i);
      MinorInRange(da, db, i, Minor(da, db, i), Walk(da, db, i).1);
    }
  }

  /** The flat offset after `i` steps. */
  function WalkOffset(da: nat, db: nat, i: nat, offset: int, offsetA: int, offsetB: int): int {
    if i == 0 then offset
    else
      WalkOffset(da, db, i - 1, offset, offsetA, offsetB) + offsetA +
      if Walk(da, db, i - 1).1 + db >= da then offsetB else 0
  }

  /** What the functor makes of the first `n` offsets. */
  function Visited<T>(at: int -> T, da: nat, db: nat, n: nat, offset: int, offsetA: int, offsetB: int): seq<T> {
    if n == 0 then []
    else
      Visited(at, da, db, n - 1, offset, offsetA, offsetB) + [at(WalkOffset(da, db, n - 1, offset, offsetA, offsetB))]
  }

  lemma {:induction false} VisitedAt<T>(at: int -> T, da: nat, db: nat, n: nat, offset: int, offsetA: int,
                                        offsetB: int, i: nat)
    requires i < n
    ensures |Visited(at, da, db, n, offset, offsetA, offsetB)| == n
    ensures Visited(at, da, db, n, offset, offsetA, offsetB)[i] == at(WalkOffset(da, db, i, offset, offsetA, offsetB))
  {
    if n > 1 {
      VisitedAt(at, da, db, n - 1, offset, offsetA, offsetB, if i < n - 1 then i else 0);
    }
  }

  /** `bresenham2D`, collecting what the functor `at` makes of each visited offset. */
  method Bresenham2D<T>(at: int -> T, absDa: nat, absDb: nat, errorB: int, offsetA: int, offsetB: int, offset0: int,
                        maxLength: nat) returns (cells: seq<T>)
    requires errorB == absDa / 2
    ensures cells == Visited(at, absDa, absDb, Min(maxLength, absDa) + 1, offset0, offsetA, offsetB)
  {
    cells := [];
    var offset, error := offset0, errorB;
    var end := Min(maxLength, absDa);
    for i := 0 to end
      invariant cells == Visited(at, absDa, absDb, i, offset0, offsetA, offsetB)
      invariant error == Walk(absDa, absDb, i).1
      invariant offset == WalkOffset(absDa, absDb, i, offset0, offsetA, offsetB)
    {
      cells := cells + [at(offset)];
      offset := offset + offsetA;
      error := error + absDb;
      if error >= absDa {
        offset := offset + offsetB;
        error := error - absDa;
      }
    }
    cells := cells + [at(offset)];
  }

  // ---------------------------------------------------------------- lines

  function Step(start: int, positive: bool, n: int): int {
    if positive then start + n else start - n
  }

  function Sign(d: int): int {
    if d > 0 then 1 else -1
  }

  /** A walk from one cell all the way to another. */
  ghost predicate IsLine(cells: seq<MapLocation>, a: MapLocation, b: MapLocation) {
    GoesTowards(cells, a, b) && cells[|cells| - 1] == b
  }

  /**
   A walk from one cell towards another inside their bounding box, each step to the same or a touching cell, and never
   more than half a cell off the segment.
   */
  ghost predicate GoesTowards(cells: seq<MapLocation>, a: MapLocation, b: MapLocation) {
    && |cells| > 0 && cells[0] == a
    && (forall i :: 0 <= i < |cells| ==> InBox(cells[i], a, b))
    && (forall i :: 0 < i < |cells| ==> Touching(cells[i - 1], cells[i]))
    && (forall i :: 0 <= i < |cells| ==> NearSegment(a, b, cells[i].x, cells[i].y))
  }

  /** A cell is within half a cell of the segment, measured along the minor axis. */
  ghost predicate NearSegment(a: MapLocation, b: MapLocation, x: int, y: int) {
    2 * Abs((y - a.y) * (b.x - a.x) - (x - a.x) * (b.y - a.y)) <= Max(Abs(b.x - a.x), Abs(b.y - a.y))
  }

  predicate InBox(c: MapLocation, a: MapLocation, b: MapLocation) {
    Min(a.x, b.x) <= c.x <= Max(a.x, b.x) && Min(a.y, b.y) <= c.y <= Max(a.y, b.y)
  }

  predicate Touching(c: MapLocation, d: MapLocation) {
    Abs(c.x - d.x) <= 1 && Abs(c.y - d.y) <= 1
  }

  function At(x: int, y: int, w: nat): int {
    y * w + x
  }

  lemma AtCell(x: nat, y: nat, w: nat)
    requires x < w
    ensures At(x, y, w) >= 0 && ToCell(At(x, y, w), w) == MapLocation(x, y)
  {
    IndexToCells(x, y, w);
    assert At(x, y, w) == Index(x, y, w);
  }

  lemma AtStep(x: int, y: int, w: nat, dx: int, dy: int)
    ensures At(x + dx, y + dy, w) == At(x, y, w) + dx + dy * w
  {
  }

  function Length(a: MapLocation, b: MapLocation): nat {
    Max(Abs(b.x - a.x), Abs(b.y - a.y))
  }

  function Breadth(a: MapLocation, b: MapLocation): nat {
    Min(Abs(b.x - a.x), Abs(b.y - a.y))
  }

  /** The cell `i` steps along the dominant axis and `k` along the other from `a` towards `b`. */
  function Point(a: MapLocation, b: MapLocation, i: int, k: int): (int, int) {
    var dx, dy := b.x - a.x, b.y - a.y;
    if Abs(dx) >= Abs(dy) then (Step(a.x, dx > 0, i), Step(a.y, dy > 0, k))
    else (Step(a.x, dx > 0, k), Step(a.y, dy > 0, i))
  }

  /** The cell `i` steps into the walk from `a` to `b`. */
  function LineCell(a: MapLocation, b: MapLocation, i: nat): (int, int) {
    Point(a, b, i, Minor(Length(a, b), Breadth(a, b), i))
  }

  lemma MinorSteps(da: nat, db: nat, i: nat)
    requires db <= da && i <= da
    ensures 0 <= Minor(da, db, i) <= db && (i == da ==> Minor(da, db, i) == db) && (i == 0 ==> Minor(da, db, i) == 0)
    ensures i > 0 ==> 0 <= Minor(da, db, i - 1) <= Minor(da, db, i) <= Minor(da, db, i - 1) + 1
  {
    MinorArrives(da, db, i);
    if i > 0 {
      MinorArrives(da, db, i - 1);
    }
  }

  /** The walk stays in the bounding box of its ends with touching steps, and meets its ends. */
  lemma LineCellsFormLine(a: MapLocation, b: MapLocation, i: nat)
    requires i <= Length(a, b)
    ensures i == 0 ==> LineCell(a, b, i) == (a.x, a.y)
    ensures i == Length(a, b) ==> LineCell(a, b, i) == (b.x, b.y)
    ensures Min(a.x, b.x) <= LineCell(a, b, i).0 <= Max(a.x, b.x)
    ensures Min(a.y, b.y) <= LineCell(a, b, i).1 <= Max(a.y, b.y)
    ensures i > 0 ==> Abs(LineCell(a, b, i - 1).0 - LineCell(a, b, i).0) <= 1
    ensures i > 0 ==> Abs(LineCell(a, b, i - 1).1 - LineCell(a, b, i).1) <= 1
  {
    MinorSteps(Length(a, b), Breadth(a, b), i);
    var k := Minor(Length(a, b), Breadth(a, b), i);
    if i == 0 {
      PointsTouch(a, b, i, k, i, k);
    } else {
      PointsTouch(a, b, i, k, i - 1, Minor(Length(a, b), Breadth(a, b), i - 1));
    }
  }

  lemma PointsTouch(a: MapLocation, b: MapLocation, i: int, k: int, j: int, l: int)
    requires 0 <= j <= i <= Length(a, b) && i <= j + 1
    requires 0 <= l <= k <= Breadth(a, b) && k <= l + 1
    ensures i == 0 && k == 0 ==> Point(a, b, i, k) == (a.x, a.y)
    ensures i == Length(a, b) && k == Breadth(a, b) ==> Point(a, b, i, k) == (b.x, b.y)
    ensures Min(a.x, b.x) <= Point(a, b, i, k).0 <= Max(a.x, b.x)
    ensures Min(a.y, b.y) <= Point(a, b, i, k).1 <= Max(a.y, b.y)
    ensures Abs(Point(a, b, j, l).0 - Point(a, b, i, k).0) <= 1
    ensures Abs(Point(a, b, j, l).1 - Point(a, b, i, k).1) <= 1
  {
    if Abs(b.x - a.x) >= Abs(b.y - a.y) {
      StepsTowards(a.x, b.x, i, j);
      StepsTowards(a.y, b.y, k, l);
    } else {
      StepsTowards(a.x, b.x, k, l);
      StepsTowards(a.y, b.y, i, j);
    }
  }

  lemma StepsTowards(start: int, end: int, n: int, m: int)
    requires 0 <= m <= n <= Abs(end - start) && n <= m + 1
    ensures Min(start, end) <= Step(start, end - start > 0, n) <= Max(start, end)
    ensures n == 0 ==> Step(start, end - start > 0, n) == start
    ensures n == Abs(end - start) ==> Step(start, end - start > 0, n) == end
    ensures Abs(Step(start, end - start > 0, m) - Step(start, end - start > 0, n)) <= 1
  {
  }

  /** The offset of the walk is the offset of its cell, when x is dominant. */
  lemma {:induction false} OffsetAlongX(w: nat, a: MapLocation, b: MapLocation, i: nat)
    requires i <= Abs(b.x - a.x) && Abs(b.x - a.x) >= Abs(b.y - a.y)
    ensures WalkOffset(Abs(b.x - a.x), Abs(b.y - a.y), i, At(a.x, a.y, w), Sign(b.x - a.x), Sign(b.y - a.y) * w) ==
            At(LineCell(a, b, i).0, LineCell(a, b, i).1, w)
  {
    if i > 0 {
      OffsetAlongX(w, a, b, i - 1);
      var (x, y) := LineCell(a, b, i - 1);
      AtStep(x, y, w, Sign(b.x - a.x), 0);
      AtStep(x, y, w, Sign(b.x - a.x), Sign(b.y - a.y));
    }
  }

  lemma {:induction false} OffsetAlongY(w: nat, a: MapLocation, b: MapLocation, i: nat)
    requires i <= Abs(b.y - a.y) && Abs(b.x - a.x) < Abs(b.y - a.y)
    ensures WalkOffset(Abs(b.y - a.y), Abs(b.x - a.x), i, At(a.x, a.y, w), Sign(b.y - a.y) * w, Sign(b.x - a.x)) ==
            At(LineCell(a, b, i).0, LineCell(a, b, i).1, w)
  {
    if i > 0 {
      OffsetAlongY(w, a, b, i - 1);
      var (x, y) := LineCell(a, b, i - 1);
      AtStep(x, y, w, 0, Sign(b.y - a.y));
      AtStep(x, y, w, Sign(b.x - a.x), Sign(b.y - a.y));
    }
  }

  lemma CellOfWalk(w: nat, a: MapLocation, b: MapLocation, i: nat) returns (c: MapLocation)
    requires a.x < w && b.x < w && i <= Length(a, b)
    ensures At(LineCell(a, b, i).0, LineCell(a, b, i).1, w) >= 0
    ensures c == ToCell(At(LineCell(a, b, i).0, LineCell(a, b, i).1, w), w) && LineCell(a, b, i) == (c.x, c.y)
  {
    LineCellsFormLine(a, b, i);
    var (x, y) := LineCell(a, b, i);
    AtCell(x, y, w);
    c := MapLocation(x, y);
  }

  /** The error term stays in range, so the walk stays within half a cell of the segment. */
  lemma WalkIsNear(a: MapLocation, b: MapLocation, i: nat)
    requires i <= Length(a, b)
    ensures NearSegment(a, b, LineCell(a, b, i).0, LineCell(a, b, i).1)
  {
    var da, db := Length(a, b), Breadth(a, b);
    var k := Minor(da, db, i);
    if da > 0 {
      WalkIsOnLine(da, db, i);
      MinorArrives(da, db, i);
      OffSegment(a, b, i, k);
    } else {
      assert a == b;
    }
  }

  lemma OffSegment(a: MapLocation, b: MapLocation, i: int, k: int)
    requires 0 <= k <= Breadth(a, b)
    ensures var (x, y) := Point(a, b, i, k);
      Abs((y - a.y) * (b.x - a.x) - (x - a.x) * (b.y - a.y)) == Abs(k * Length(a, b) - i * Breadth(a, b))
  {
    var dx, dy := b.x - a.x, b.y - a.y;
    if Abs(dx) >= Abs(dy) {
      SignedProducts(k, dx, dy > 0);
      SignedProducts(i, dy, dx > 0);
    } else {
      SignedProducts(i, dx, dy > 0);
      SignedProducts(k, dy, dx > 0);
    }
  }

  lemma SignedProducts(n: int, d: int, positive: bool)
    ensures Step(0, positive, n) * d == (if positive == (d > 0) then n * Abs(d) else -(n * Abs(d))) || d == 0
    ensures d == 0 ==> Step(0, positive, n) * d == 0
  {
    assert (-n) * d == -(n * d);
    assert n * (-d) == -(n * d);
    assert (-n) * (-d) == n * d;
  }

  /** The first cells of the walk from `a` to `b`. */
  ghost predicate Begins(cells: seq<MapLocation>, a: MapLocation, b: MapLocation) {
    && 0 < |cells| <= Length(a, b) + 1
    && forall i :: 0 <= i < |cells| ==> LineCell(a, b, i) == (cells[i].x, cells[i].y)
  }

  lemma WalkIsLine(cells: seq<MapLocation>, a: MapLocation, b: MapLocation)
    requires Begins(cells, a, b)
    ensures GoesTowards(cells, a, b) && (|cells| == Length(a, b) + 1 ==> IsLine(cells, a, b))
  {
    LineCellsFormLine(a, b, 0);
    LineCellsFormLine(a, b, Length(a, b));
    forall i: nat | i < |cells| ensures InBox(cells[i], a, b) && (i > 0 ==> Touching(cells[i - 1], cells[i])) {
      LineCellsFormLine(a, b, i);
    }
    forall i: nat | i < |cells| ensures NearSegment(a, b, cells[i].x, cells[i].y) {
      WalkIsNear(a, b, i);
    }
  }

  lemma AlongX(w: nat, a: MapLocation, b: MapLocation, n: nat)
    requires a.x < w && b.x < w && Abs(b.x - a.x) >= Abs(b.y - a.y) && 0 < n <= Abs(b.x - a.x) + 1
    ensures Begins(Visited(Gather(w), Abs(b.x - a.x), Abs(b.y - a.y), n, At(a.x, a.y, w), Sign(b.x - a.x),
                           Sign(b.y - a.y) * w), a, b)
  {
    var da, db := Abs(b.x - a.x), Abs(b.y - a.y);
    var sa, sb, offset := Sign(b.x - a.x), Sign(b.y - a.y) * w, At(a.x, a.y, w);
    var cells := Visited(Gather(w), da, db, n, offset, sa, sb);
    VisitedAt(Gather(w), da, db, n, offset, sa, sb, 0);
    forall i: nat | i < |cells| ensures LineCell(a, b, i) == (cells[i].x, cells[i].y) {
      VisitedAt(Gather(w), da, db, n, offset, sa, sb, i);
      OffsetAlongX(w, a, b, i);
      var c := CellOfWalk(w, a, b, i);
    }
  }

  lemma AlongY(w: nat, a: MapLocation, b: MapLocation, n: nat)
    requires a.x < w && b.x < w && Abs(b.x - a.x) < Abs(b.y - a.y) && 0 < n <= Abs(b.y - a.y) + 1
    ensures Begins(Visited(Gather(w), Abs(b.y - a.y), Abs(b.x - a.x), n, At(a.x, a.y, w), Sign(b.y - a.y) * w,
                           Sign(b.x - a.x)), a, b)
  {
    var da, db := Abs(b.y - a.y), Abs(b.x - a.x);
    var sa, sb, offset := Sign(b.y - a.y) * w, Sign(b.x - a.x), At(a.x, a.y, w);
    var cells := Visited(Gather(w), da, db, n, offset, sa, sb);
    VisitedAt(Gather(w), da, db, n, offset, sa, sb, 0);
    forall i: nat | i < |cells| ensures LineCell(a, b, i) == (cells[i].x, cells[i].y) {
      VisitedAt(Gather(w), da, db, n, offset, sa, sb, i);
      OffsetAlongY(w, a, b, i);
      var c := CellOfWalk(w, a, b, i);
    }
  }

  // ---------------------------------------------------------------- shortened lines

  /** What `hypot` gives. */
  ghost predicate IsHypot(dist: real, dx: int, dy: int) {
    dist >= 0.0 && dist * dist == (dx * dx + dy * dy) as real
  }

  /** One coordinate of the cell `m` along a segment of length `dist` that runs from `from` over `d`. */
  function Along(from: nat, d: int, dist: real, m: real): int
    requires dist > 0.0
  {
    (from as real + d as real / dist * m).Floor
  }

  /** `c` is the last whole coordinate not past the point at distance `m` of `dist` on the way. */
  ghost predicate Reached(from: int, to: int, dist: real, m: real, c: int) {
    WholePart(c, dist, from as real * dist + (to - from) as real * m)
  }

  /** `c` is how often `dist` goes into `total`. */
  ghost predicate WholePart(c: int, dist: real, total: real) {
    c as real * dist <= total < c as real * dist + dist
  }

  lemma FloorIsWholePart(exact: real, dist: real, total: real)
    requires dist > 0.0 && exact * dist == total
    ensures WholePart(exact.Floor, dist, total)
  {
    var whole, part := exact.Floor as real, exact - exact.Floor as real;
    var rest := Fraction(part, dist);
    assert rest == exact * dist - whole * dist;
  }

  lemma Fraction(part: real, dist: real) returns (rest: real)
    requires 0.0 <= part < 1.0 && dist > 0.0
    ensures rest == part * dist && 0.0 <= rest < dist
  {
    rest := part * dist;
    var other := (1.0 - part) * dist;
    assert other > 0.0 && other == dist - rest;
  }

  lemma AlongStaysBetween(from: nat, to: nat, dist: real, m: real)
    requires 0.0 <= m <= dist && dist > 0.0
    ensures Min(from, to) <= Along(from, to - from, dist, m) <= Max(from, to)
    ensures m == 0.0 ==> Along(from, to - from, dist, m) == from
  {
    var q := Quotient(m, dist);
    Share((to - from) as real, dist, m, q);
    ScaledBetween((to - from) as real, q);
  }

  lemma AlongReaches(from: nat, to: nat, dist: real, m: real)
    requires dist > 0.0
    ensures Reached(from, to, dist, m, Along(from, to - from, dist, m))
  {
    var d := (to - from) as real;
    var share := d / dist * m;
    Cancels(d, dist, m);
    Sum(from as real, share, dist, d * m);
    var exact := from as real + share;
    assert Along(from, to - from, dist, m) == exact.Floor;
    FloorIsWholePart(exact, dist, from as real * dist + d * m);
  }

  lemma Sum(a: real, b: real, k: real, bk: real)
    requires b * k == bk
    ensures (a + b) * k == a * k + bk
  {
  }

  lemma Cancels(d: real, dist: real, m: real)
    requires dist > 0.0
    ensures d / dist * m * dist == d * m
  {
    var q := d / dist;
    assert q * dist == d;
    assert q * m * dist == q * dist * m;
  }

  lemma Quotient(m: real, dist: real) returns (q: real)
    requires 0.0 <= m <= dist && dist > 0.0
    ensures q == m / dist && 0.0 <= q <= 1.0 && (m == 0.0 ==> q == 0.0)
  {
    q := m / dist;
    assert q * dist == m;
  }

  lemma Share(d: real, dist: real, m: real, q: real)
    requires dist > 0.0 && q == m / dist
    ensures d / dist * m == d * q
  {
    assert d / dist * dist == d;
    assert m == q * dist;
    assert d / dist * (q * dist) == (d / dist * dist) * q;
  }

  lemma ScaledBetween(d: real, q: real)
    requires 0.0 <= q <= 1.0
    ensures d >= 0.0 ==> 0.0 <= d * q <= d
    ensures d <= 0.0 ==> d <= d * q <= 0.0
    ensures q == 0.0 ==> d * q == 0.0
  {
  }

  /** The cell at which a line with a minimum length starts. */
  function StartCell(a: MapLocation, b: MapLocation, minLength: nat, dist: real): (c: MapLocation)
    requires minLength as real <= dist
    ensures InBox(c, a, b) && (minLength == 0 ==> c == a)
    ensures dist > 0.0 ==>
      Reached(a.x, b.x, dist, minLength as real, c.x) && Reached(a.y, b.y, dist, minLength as real, c.y)
  {
    if dist > 0.0 then
      AlongReaches(a.x, b.x, dist, minLength as real);
      AlongReaches(a.y, b.y, dist, minLength as real);
      AlongStaysBetween(a.x, b.x, dist, minLength as real);
      AlongStaysBetween(a.y, b.y, dist, minLength as real);
      MapLocation(Along(a.x, b.x - a.x, dist, minLength as real), Along(a.y, b.y - a.y, dist, minLength as real))
    else a
  }

  /** How many of `n` steps a maximum length leaves: the most that are no larger part than it is of the distance. */
  function StepsWithin(maxLength: nat, dist: real, n: nat): (steps: nat)
    requires dist >= 0.0
    ensures steps <= n && (dist <= maxLength as real ==> steps == n)
    ensures steps as real * dist <= maxLength as real * n as real
    ensures dist > maxLength as real ==> WholePart(steps, dist, maxLength as real * n as real)
  {
    if dist <= maxLength as real then
      Products(n as real, dist, maxLength as real);
      n
    else
      var scale := maxLength as real / dist;
      var steps := (scale * n as real).Floor;
      LastWholeShare(maxLength as real, dist, n as real, steps);
      steps
  }

  lemma Products(n: real, a: real, b: real)
    requires n >= 0.0 && a <= b
    ensures n * a <= b * n
  {
    assert n * (b - a) >= 0.0;
  }

  lemma ShareOf(m: real, dist: real, n: real) returns (exact: real)
    requires 0.0 <= m < dist && n >= 0.0
    ensures exact == m / dist * n && 0.0 <= exact <= n && exact * dist == m * n
  {
    var q := Quotient(m, dist);
    ScaledBetween(n, q);
    exact := q * n;
    Cancels(m, dist, n);
  }

  lemma LastWholeShare(m: real, dist: real, n: real, steps: int)
    requires 0.0 <= m < dist && n >= 0.0 && steps == (m / dist * n).Floor
    ensures 0 <= steps && steps as real <= n && WholePart(steps, dist, m * n)
  {
    var exact := ShareOf(m, dist, n);
    FloorIsWholePart(exact, dist, m * n);
  }

  // ---------------------------------------------------------------- raytraceLine

  /** The walk from `start`, of `steps` steps along the dominant axis. */
  method WalkTowards(w: nat, start: MapLocation, b: MapLocation, maxX: nat, maxY: nat) returns (cells: seq<MapLocation>)
    requires start.x < w && b.x < w
    ensures var n := if Abs(b.x - start.x) >= Abs(b.y - start.y) then maxX else maxY;
      |cells| == Min(n, Length(start, b)) + 1
    ensures GoesTowards(cells, start, b) && (|cells| == Length(start, b) + 1 ==> IsLine(cells, start, b))
  {
    var dx, dy := b.x - start.x, b.y - start.y;
    var absDx, absDy := Abs(dx), Abs(dy);
    var offset := At(start.x, start.y, w);
    var offsetDx, offsetDy := Sign(dx), Sign(dy) * w;
    if absDx >= absDy {
      cells := Bresenham2D(Gather(w), absDx, absDy, absDx / 2, offsetDx, offsetDy, offset, maxX);
      AlongX(w, start, b, Min(maxX, absDx) + 1);
      VisitedAt(Gather(w), absDx, absDy, Min(maxX, absDx) + 1, offset, offsetDx, offsetDy, 0);
    } else {
      cells := Bresenham2D(Gather(w), absDy, absDx, absDy / 2, offsetDy, offsetDx, offset, maxY);
      AlongY(w, start, b, Min(maxY, absDy) + 1);
      VisitedAt(Gather(w), absDy, absDx, Min(maxY, absDy) + 1, offset, offsetDy, offsetDx, 0);
    }
    WalkIsLine(cells, start, b);
  }

  /**
   `raytraceLine`, given the distance of the ends: nothing if they are closer than the minimum length, and otherwise a
   walk that starts the minimum length away from `a`, heads for `b`, and goes no larger part of its way than the maximum
   length is of the distance.
   */
  method RaytraceLine(w: nat, a: MapLocation, b: MapLocation, maxLength: nat, minLength: nat, dist: real)
    returns (cells: seq<MapLocation>)
    requires a.x < w && b.x < w && IsHypot(dist, b.x - a.x, b.y - a.y)
    ensures dist < minLength as real ==> cells == []
    ensures dist >= minLength as real ==>
      var start := StartCell(a, b, minLength, dist);
      && GoesTowards(cells, start, b)
      && |cells| == StepsWithin(maxLength, dist, Length(start, b)) + 1
      && (dist <= maxLength as real ==> IsLine(cells, start, b))
  {
    if dist < minLength as real {
      return [];
    }
    var start := StartCell(a, b, minLength, dist);
    cells := WalkTowards(w, start, b, StepsWithin(maxLength, dist, Abs(b.x - start.x)),
                         StepsWithin(maxLength, dist, Abs(b.y - start.y)));
  }

  /** `raytraceLine` with the default lengths: the whole line, both endpoints included. */
  method WholeLine(w: nat, a: MapLocation, b: MapLocation) returns (cells: seq<MapLocation>)
    requires a.x < w && b.x < w
    ensures IsLine(cells, a, b)
  {
    cells := WalkTowards(w, a, b, Abs(b.x - a.x), Abs(b.y - a.y));
  }
}
