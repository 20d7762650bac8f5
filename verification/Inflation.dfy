/**
 What the finished inflation wavefront says about distances and costs.

 `Wavefront.Complete` is turned into statements about squared distances, and from those follow
 soundness for any number of obstacles, exactness along unobstructed paths, and exactness
 everywhere for a single obstacle.
 */
module Inflation {
  import opened Grid
  import opened DistanceLevels
  import opened Wavefront

  /** Squared distance between two cells. */
  function Dist(c: Cell, s: Cell): int {
    Offset(c.x - s.x, c.y - s.y).Norm()
  }

  type Metric = (Cell, Cell) -> int

  /**
   The outcome of one inflation, for distance `dist` and squared radius `reach`: `from` maps the
   cells that were inflated to the obstacle that inflated them.
   */
  ghost predicate Inflated(w: nat, h: nat, seeds: set<Cell>, dist: Metric, reach: int, from: map<Cell, Cell>) {
    && Sound(w, h, seeds, dist, reach, from)
    && (forall s :: s in seeds ==> s in from && from[s] == s)
    && OutwardClosed(w, h, dist, reach, from)
    && Connected(dist, from)
  }

  /** Only in-grid cells within the radius of a real obstacle are inflated, from that obstacle. */
  ghost predicate Sound(w: nat, h: nat, seeds: set<Cell>, dist: Metric, reach: int, from: map<Cell, Cell>) {
    forall c :: c in from ==> c.x < w && c.y < h && from[c] in seeds && dist(c, from[c]) <= reach
  }

  /** Outward neighbours of an inflated cell are inflated too, from an obstacle at least as near. */
  ghost predicate OutwardClosed(w: nat, h: nat, dist: Metric, reach: int, from: map<Cell, Cell>) {
    forall c, n: Cell :: c in from && n.x < w && n.y < h && Adjacent(c, n)
                         && dist(c, from[c]) < dist(n, from[c]) <= reach ==>
      n in from && dist(n, from[n]) <= dist(n, from[c])
  }

  /** `c` has a neighbour inflated from `s` and nearer to it. */
  ghost predicate ReachedFrom(dist: Metric, from: map<Cell, Cell>, c: Cell, s: Cell) {
    exists q :: q in from && from[q] == s && Adjacent(q, c) && dist(q, s) < dist(c, s)
  }

  /** An inflated cell is reached through a neighbour inflated from the same obstacle and nearer to it. */
  ghost predicate Connected(dist: Metric, from: map<Cell, Cell>) {
    forall c {:trigger ReachedFrom(dist, from, c, from[c])} :: c in from && c != from[c] ==>
      ReachedFrom(dist, from, c, from[c])
  }

  // ---------------------------------------------------------------- distances and levels

  /** What the wavefront needs to know about squared distance. */
  ghost predicate Geometric(dist: Metric) {
    && (forall c, s :: dist(c, s) >= 0 && (dist(c, s) == 0 <==> c == s))
    && (forall c, n, s :: Adjacent(c, n) ==> dist(c, s) != dist(n, s))
    && (forall c, s {:trigger Approachable(dist, c, s)} :: c != s ==> Approachable(dist, c, s))
  }

  /** `q` is one step from `c` towards `s`, along an axis on which they differ. */
  ghost predicate Towards(dist: Metric, c: Cell, s: Cell, q: Cell) {
    && Adjacent(q, c) && dist(q, s) < dist(c, s)
    && q.x <= Max(c.x, s.x) && q.y <= Max(c.y, s.y)
    && Abs(q.x - s.x) + Abs(q.y - s.y) < Abs(c.x - s.x) + Abs(c.y - s.y)
  }

  ghost predicate Approachable(dist: Metric, c: Cell, s: Cell) {
    exists q :: Towards(dist, c, s, q)
  }

  /** `rank` orders attained distances as they are, and numbers those within reach below `bins`. */
  ghost predicate Ranks(dist: Metric, rank: int -> nat, reach: int, bins: nat) {
    && rank(0) == 0
    && (forall c, s, n, t {:trigger rank(dist(c, s)), rank(dist(n, t))} ::
          rank(dist(c, s)) < rank(dist(n, t)) <==> dist(c, s) < dist(n, t))
    && (forall c, s :: dist(c, s) <= reach ==> rank(dist(c, s)) < bins)
  }

  ghost function MakeField(w: nat, h: nat, seeds: set<Cell>, dist: Metric, rank: int -> nat, reach: int): Field {
    Field(w, h, (c: Cell) => Index(c.x, c.y, w), seeds, (c: Cell, s: Cell) => rank(dist(c, s)),
          (c: Cell, s: Cell) => dist(c, s) <= reach)
  }

  lemma FieldWellIndexed(w: nat, h: nat, seeds: set<Cell>, dist: Metric, rank: int -> nat, reach: int)
    ensures MakeField(w, h, seeds, dist, rank, reach).WellIndexed()
  {
    var f := MakeField(w, h, seeds, dist, rank, reach);
    forall c | f.InGrid(c) ensures f.index(c) < w * h {
      IndexBound(c.x, c.y, w, h);
    }
    forall c, n | f.InGrid(c) && f.InGrid(n) && f.index(c) == f.index(n) ensures c == n {
      IndexInjective(c.x, c.y, n.x, n.y, w);
    }
    forall c: Cell, n: Cell
      ensures n.x == c.x + 1 && n.y == c.y ==> f.index(n) == f.index(c) + 1
      ensures n.x == c.x && n.y == c.y + 1 ==> f.index(n) == f.index(c) + w
    {
      StepIndices(c.x, c.y, w);
    }
  }

  lemma FieldWellRanked(w: nat, h: nat, seeds: set<Cell>, dist: Metric, rank: int -> nat, reach: nat, bins: nat)
    requires Geometric(dist) && Ranks(dist, rank, reach, bins)
    requires forall s :: s in seeds ==> s.x < w && s.y < h
    ensures MakeField(w, h, seeds, dist, rank, reach).WellRanked(bins)
  {
    var f := MakeField(w, h, seeds, dist, rank, reach);
    forall c, s | f.level(c, s) == 0 ensures c == s {
      assert dist(s, s) == 0;
    }
    forall c, n, s | Adjacent(c, n) ensures f.level(c, s) != f.level(n, s) {
      assert dist(c, s) != dist(n, s);
    }
  }

  /** The finished wavefront, said in distances. */
  lemma CompleteIsInflated(w: nat, h: nat, seeds: set<Cell>, dist: Metric, rank: int -> nat, reach: nat, bins: nat,
                           from: map<Cell, Cell>)
    requires Ranks(dist, rank, reach, bins)
    requires Complete(MakeField(w, h, seeds, dist, rank, reach), from)
    ensures Inflated(w, h, seeds, dist, reach, from)
  {
    OutwardInDistances(w, h, seeds, dist, rank, reach, bins, from);
    ConnectedInDistances(w, h, seeds, dist, rank, reach, bins, from);
  }

  lemma OutwardInDistances(w: nat, h: nat, seeds: set<Cell>, dist: Metric, rank: int -> nat, reach: nat, bins: nat,
                           from: map<Cell, Cell>)
    requires Ranks(dist, rank, reach, bins)
    requires OutwardDone(MakeField(w, h, seeds, dist, rank, reach), from)
    ensures OutwardClosed(w, h, dist, reach, from)
  {
    forall c, n: Cell | c in from && n.x < w && n.y < h && Adjacent(c, n)
                        && dist(c, from[c]) < dist(n, from[c]) <= reach
      ensures n in from && dist(n, from[n]) <= dist(n, from[c])
    {
      OutwardPoint(w, h, seeds, dist, rank, reach, bins, from, c, n);
    }
  }

  lemma OutwardPoint(w: nat, h: nat, seeds: set<Cell>, dist: Metric, rank: int -> nat, reach: nat, bins: nat,
                     from: map<Cell, Cell>, c: Cell, n: Cell)
    requires Ranks(dist, rank, reach, bins)
    requires OutwardDone(MakeField(w, h, seeds, dist, rank, reach), from)
    requires c in from && n.x < w && n.y < h && Adjacent(c, n) && dist(c, from[c]) < dist(n, from[c]) <= reach
    ensures n in from && dist(n, from[n]) <= dist(n, from[c])
  {
    assert rank(dist(c, from[c])) < rank(dist(n, from[c]));
    OutwardRank(w, h, seeds, dist, rank, reach, from, c, n);
    assert !(rank(dist(n, from[c])) < rank(dist(n, from[n])));
  }

  lemma OutwardRank(w: nat, h: nat, seeds: set<Cell>, dist: Metric, rank: int -> nat, reach: nat, from: map<Cell, Cell>,
                    c: Cell, n: Cell)
    requires OutwardDone(MakeField(w, h, seeds, dist, rank, reach), from)
    requires c in from && n.x < w && n.y < h && Adjacent(c, n) && dist(n, from[c]) <= reach
    requires rank(dist(c, from[c])) < rank(dist(n, from[c]))
    ensures n in from && rank(dist(n, from[n])) <= rank(dist(n, from[c]))
  {
    assert Outward(MakeField(w, h, seeds, dist, rank, reach), c, n, from[c]);
  }

  lemma ConnectedInDistances(w: nat, h: nat, seeds: set<Cell>, dist: Metric, rank: int -> nat, reach: nat, bins: nat,
                             from: map<Cell, Cell>)
    requires Ranks(dist, rank, reach, bins)
    requires forall c :: c in from ==> Rooted(MakeField(w, h, seeds, dist, rank, reach), from, c, from[c])
    ensures Connected(dist, from)
  {
  }

  lemma DistZero(c: Cell, s: Cell)
    ensures Dist(c, s) >= 0
    ensures Dist(c, s) == 0 <==> c == s
  {
    Squares(c.x - s.x);
    Squares(c.y - s.y);
  }

  /** Moving one cell along an axis changes the squared distance by an odd number. */
  lemma AdjacentDistances(c: Cell, n: Cell, s: Cell)
    requires Adjacent(c, n)
    ensures Dist(c, s) != Dist(n, s)
  {
    if c.y == n.y {
      OddStep(c.x - s.x, n.x - s.x);
    } else {
      OddStep(c.y - s.y, n.y - s.y);
    }
  }

  lemma OddStep(a: int, b: int)
    requires b == a + 1 || a == b + 1
    ensures a * a != b * b
  {
    assert (a + 1) * (a + 1) == a * a + 2 * a + 1;
    assert (b + 1) * (b + 1) == b * b + 2 * b + 1;
  }

  lemma SmallerSquare(a: int)
    ensures a > 0 ==> (a - 1) * (a - 1) < a * a
    ensures a < 0 ==> (a + 1) * (a + 1) < a * a
  {
    assert (a - 1) * (a - 1) == a * a - 2 * a + 1;
    assert (a + 1) * (a + 1) == a * a + 2 * a + 1;
  }

  lemma ShorterInX(x: int, y: int)
    ensures x > 0 ==> Offset(x - 1, y).Norm() < Offset(x, y).Norm()
    ensures x < 0 ==> Offset(x + 1, y).Norm() < Offset(x, y).Norm()
  {
    SmallerSquare(x);
  }

  lemma ShorterInY(x: int, y: int)
    ensures y > 0 ==> Offset(x, y - 1).Norm() < Offset(x, y).Norm()
    ensures y < 0 ==> Offset(x, y + 1).Norm() < Offset(x, y).Norm()
  {
    SmallerSquare(y);
  }

  lemma Inward(c: Cell, s: Cell) returns (q: Cell)
    requires c != s
    ensures Towards(Dist, c, s, q)
  {
    var dx, dy := c.x - s.x, c.y - s.y;
    if dx != 0 {
      q := Cell(if dx > 0 then c.x - 1 else c.x + 1, c.y);
      assert q.x - s.x == if dx > 0 then dx - 1 else dx + 1;
      ShorterInX(dx, dy);
    } else {
      q := Cell(c.x, if dy > 0 then c.y - 1 else c.y + 1);
      assert q.y - s.y == if dy > 0 then dy - 1 else dy + 1;
      ShorterInY(dx, dy);
    }
    assert Dist(q, s) < Dist(c, s);
  }

  lemma DistIsGeometric()
    ensures Geometric(Dist)
  {
    forall c, s ensures Dist(c, s) >= 0 && (Dist(c, s) == 0 <==> c == s) {
      DistZero(c, s);
    }
    forall c, n, s | Adjacent(c, n) ensures Dist(c, s) != Dist(n, s) {
      AdjacentDistances(c, n, s);
    }
    forall c, s: Cell | c != s ensures Approachable(Dist, c, s) {
      var q := Inward(c, s);
    }
  }

  /** Squared distance under a name that is opened on request only, by `DistanceNamed`. */
  ghost function Named(n: nat): Metric {
    if n == 0 then Dist else Named(n - 1)
  }

  lemma {:induction false} DistanceNamed(n: nat)
    ensures Named(n) == Dist
  {
    if n > 0 {
      DistanceNamed(n - 1);
    }
  }

  lemma NamedIsGeometric(n: nat)
    ensures Geometric(Named(n))
  {
    DistIsGeometric();
    DistanceNamed(n);
  }

  lemma LevelsFollowDistances(c: Cell, s: Cell, n: Cell, t: Cell)
    ensures Level(Dist(c, s)) < Level(Dist(n, t)) <==> Dist(c, s) < Dist(n, t)
  {
    var p, q := Offset(c.x - s.x, c.y - s.y), Offset(n.x - t.x, n.y - t.y);
    LevelOrderIsomorphism(p, q);
    assert Dist(c, s) == p.Norm() && Dist(n, t) == q.Norm();
  }

  lemma BinInRange(n: int, radius: nat)
    requires n <= radius * radius
    ensures Level(n) <= Level((radius + 2) * (radius + 2))
  {
    assert (radius + 2) * (radius + 2) == radius * radius + 4 * radius + 4;
    LevelMonotone(n, (radius + 2) * (radius + 2));
  }

  lemma LevelsRankDistances(radius: nat)
    ensures Ranks(Dist, Level, radius * radius, Level((radius + 2) * (radius + 2)) + 1)
  {
    forall c, s, n, t ensures Level(Dist(c, s)) < Level(Dist(n, t)) <==> Dist(c, s) < Dist(n, t) {
      LevelsFollowDistances(c, s, n, t);
    }
    forall c, s | Dist(c, s) <= radius * radius ensures Level(Dist(c, s)) <= Level((radius + 2) * (radius + 2)) {
      BinInRange(Dist(c, s), radius);
    }
  }

  // ---------------------------------------------------------------- exactness along a path

  /** A walk of in-grid neighbours away from `s`, ending within the radius. */
  ghost predicate OutwardPath(w: nat, h: nat, dist: Metric, reach: int, path: seq<Cell>, s: Cell) {
    && |path| > 0 && path[0] == s
    && (forall k :: 0 <= k < |path| ==> path[k].x < w && path[k].y < h && dist(path[k], s) <= reach)
    && (forall k :: 0 < k < |path| ==> Adjacent(path[k - 1], path[k]) && dist(path[k - 1], s) < dist(path[k], s))
  }

  ghost predicate NearestIs(seeds: set<Cell>, dist: Metric, c: Cell, s: Cell) {
    s in seeds && forall t :: t in seeds ==> dist(c, s) <= dist(c, t)
  }

  ghost predicate StrictlyNearestIs(seeds: set<Cell>, dist: Metric, c: Cell, s: Cell) {
    s in seeds && forall t :: t in seeds && t != s ==> dist(c, s) < dist(c, t)
  }

  /**
   With any number of obstacles: a cell is inflated from its true nearest distance whenever some
   outward path from a nearest obstacle stays in the region that obstacle strictly dominates.
   */
  lemma {:induction false} ExactAlongPath(w: nat, h: nat, seeds: set<Cell>, dist: Metric, reach: int,
                                          from: map<Cell, Cell>, path: seq<Cell>, s: Cell)
    requires Inflated(w, h, seeds, dist, reach, from)
    requires OutwardPath(w, h, dist, reach, path, s) && s in seeds
    requires forall k :: 0 <= k < |path| - 1 ==> StrictlyNearestIs(seeds, dist, path[k], s)
    requires NearestIs(seeds, dist, path[|path| - 1], s)
    ensures path[|path| - 1] in from
    ensures dist(path[|path| - 1], from[path[|path| - 1]]) == dist(path[|path| - 1], s)
    decreases |path|
  {
    var last := |path| - 1;
    if last > 0 {
      var prefix := path[..last];
      ExactAlongPath(w, h, seeds, dist, reach, from, prefix, s);
      assert path[last - 1] == prefix[|prefix| - 1];
      assert from[path[last - 1]] == s;
    }
  }

  /** Two steps from an obstacle through cells it dominates. */
  lemma TwoSteps(w: nat, h: nat, seeds: set<Cell>, dist: Metric, reach: int, from: map<Cell, Cell>, a: Cell, b: Cell,
                 c: Cell)
    requires Inflated(w, h, seeds, dist, reach, from)
    requires a.x < w && a.y < h && b.x < w && b.y < h && c.x < w && c.y < h
    requires Adjacent(a, b) && Adjacent(b, c) && dist(a, a) < dist(b, a) < dist(c, a) <= reach
    requires StrictlyNearestIs(seeds, dist, a, a) && StrictlyNearestIs(seeds, dist, b, a)
    requires StrictlyNearestIs(seeds, dist, c, a)
    ensures c in from && from[c] == a
  {
  }

  /** `q` and `r` are the only neighbours of `c` nearer to `b`, and `q` is one step from `c` towards `a`. */
  ghost predicate Hemmed(w: nat, h: nat, dist: Metric, reach: int, a: Cell, b: Cell, d: Cell, c: Cell, q: Cell,
                         r: Cell) {
    && c.x < w && c.y < h && c != b && a != b && d != b
    && Adjacent(q, c) && dist(q, a) < dist(c, a) <= reach
    && forall n :: Adjacent(n, c) && dist(n, b) < dist(c, b) ==> n == q || n == r
  }

  /**
   `c` has a nearest obstacle `b`, and two neighbours in its direction that are inflated from `a` and `d` instead. Then
   `c` is inflated, but not from `b`.
   */
  lemma CutOff(w: nat, h: nat, seeds: set<Cell>, dist: Metric, reach: int, from: map<Cell, Cell>,
               a: Cell, b: Cell, d: Cell, c: Cell, q: Cell, r: Cell)
    requires Inflated(w, h, seeds, dist, reach, from) && Hemmed(w, h, dist, reach, a, b, d, c, q, r)
    requires q in from && from[q] == a && r in from && from[r] == d
    ensures c in from && from[c] != b && from[c] in seeds
  {
    assert c in from;
    assert c != from[c] ==> ReachedFrom(dist, from, c, from[c]);
  }

  ghost predicate Three(seeds: set<Cell>, a: Cell, b: Cell, d: Cell) {
    a in seeds && b in seeds && d in seeds && forall s :: s in seeds ==> s == a || s == b || s == d
  }

  lemma Dominates(seeds: set<Cell>, dist: Metric, a: Cell, b: Cell, d: Cell, c: Cell)
    requires Three(seeds, a, b, d) && dist(c, a) < dist(c, b) && dist(c, a) < dist(c, d)
    ensures StrictlyNearestIs(seeds, dist, c, a)
  {
  }

  ghost predicate Distances(dist: Metric, c: Cell, a: Cell, b: Cell, d: Cell, na: int, nb: int, nd: int) {
    dist(c, a) == na && dist(c, b) == nb && dist(c, d) == nd
  }

  /** The first and third obstacle take the neighbours of the corner. */
  lemma NeighbourTaken(seeds: set<Cell>, dist: Metric, reach: int, from: map<Cell, Cell>, a: Cell, b: Cell, d: Cell,
                       p: Cell, q: Cell)
    requires Three(seeds, a, b, d) && reach >= 9 && Inflated(4, 4, seeds, dist, reach, from)
    requires a.x < 4 && a.y < 4 && p.x < 4 && p.y < 4 && q.x < 4 && q.y < 4 && Adjacent(a, p) && Adjacent(p, q)
    requires Distances(dist, a, a, b, d, 0, 5, 18) && Distances(dist, p, a, b, d, 1, 4, 13)
    requires Distances(dist, q, a, b, d, 4, 5, 10)
    ensures q in from && from[q] == a
  {
    Dominates(seeds, dist, a, b, d, a);
    Dominates(seeds, dist, a, b, d, p);
    Dominates(seeds, dist, a, b, d, q);
    TwoSteps(4, 4, seeds, dist, reach, from, a, p, q);
  }

  /** The distances of the example, for obstacles `a`, `b` and `d`. */
  ghost predicate Corner(dist: Metric, a: Cell, b: Cell, d: Cell) {
    && a == Cell(0, 0) && b == Cell(1, 2) && d == Cell(3, 3)
    && Distances(dist, a, a, b, d, 0, 5, 18) && Distances(dist, d, d, b, a, 0, 5, 18)
    && Distances(dist, Cell(1, 0), a, b, d, 1, 4, 13) && Distances(dist, Cell(3, 2), d, b, a, 1, 4, 13)
    && Distances(dist, Cell(2, 0), a, b, d, 4, 5, 10) && Distances(dist, Cell(3, 1), d, b, a, 4, 5, 10)
    && Distances(dist, Cell(3, 0), a, b, d, 9, 8, 9) && Distances(dist, Cell(4, 0), a, b, d, 16, 13, 10)
  }

  lemma FirstTaken(seeds: set<Cell>, dist: Metric, reach: int, from: map<Cell, Cell>, a: Cell, b: Cell, d: Cell,
                   q: Cell)
    requires Corner(dist, a, b, d) && Three(seeds, a, b, d) && reach >= 9 && Inflated(4, 4, seeds, dist, reach, from)
    requires q == Cell(2, 0)
    ensures q in from && from[q] == a
  {
    NeighbourTaken(seeds, dist, reach, from, a, b, d, Cell(1, 0), q);
  }

  lemma SecondTaken(seeds: set<Cell>, dist: Metric, reach: int, from: map<Cell, Cell>, a: Cell, b: Cell, d: Cell,
                    r: Cell)
    requires Corner(dist, a, b, d) && Three(seeds, a, b, d) && reach >= 9 && Inflated(4, 4, seeds, dist, reach, from)
    requires r == Cell(3, 1)
    ensures r in from && from[r] == d
  {
    NeighbourTaken(seeds, dist, reach, from, d, b, a, Cell(3, 2), r);
  }

  lemma CornerMissed(seeds: set<Cell>, dist: Metric, reach: int, from: map<Cell, Cell>, a: Cell, b: Cell, d: Cell,
                     c: Cell)
    requires Corner(dist, a, b, d) && Three(seeds, a, b, d) && reach >= 9 && Inflated(4, 4, seeds, dist, reach, from)
    requires c == Cell(3, 0)
    ensures c in from && (from[c] == a || from[c] == d)
  {
    var q, r := Cell(2, 0), Cell(3, 1);
    FirstTaken(seeds, dist, reach, from, a, b, d, q);
    SecondTaken(seeds, dist, reach, from, a, b, d, r);
    CornerIsHemmed(dist, reach, a, b, d, c, q, r);
    CutOff(4, 4, seeds, dist, reach, from, a, b, d, c, q, r);
  }

  lemma CornerIsHemmed(dist: Metric, reach: int, a: Cell, b: Cell, d: Cell, c: Cell, q: Cell, r: Cell)
    requires Corner(dist, a, b, d) && reach >= 9 && c == Cell(3, 0) && q == Cell(2, 0) && r == Cell(3, 1)
    ensures Hemmed(4, 4, dist, reach, a, b, d, c, q, r)
  {
    forall n | Adjacent(n, c) && dist(n, b) < dist(c, b) ensures n == q || n == r {
      CornerNeighbour(n);
    }
  }

  lemma CornerNeighbour(n: Cell)
    requires Adjacent(n, Cell(3, 0))
    ensures n == Cell(2, 0) || n == Cell(3, 1) || n == Cell(4, 0)
  {
  }

  lemma DistancesOf(n: nat, c: Cell, a: Cell, b: Cell, d: Cell, x: int, y: int, na: int, nb: int, nd: int)
    requires c.x == x && c.y == y
    requires na == (x - a.x) * (x - a.x) + (y - a.y) * (y - a.y)
    requires nb == (x - b.x) * (x - b.x) + (y - b.y) * (y - b.y)
    requires nd == (x - d.x) * (x - d.x) + (y - d.y) * (y - d.y)
    ensures Distances(Named(n), c, a, b, d, na, nb, nd)
  {
    DistanceNamed(n);
  }

  lemma CornerDistances(n: nat, a: Cell, b: Cell, d: Cell)
    requires a == Cell(0, 0) && b == Cell(1, 2) && d == Cell(3, 3)
    ensures Corner(Named(n), a, b, d)
  {
    DistancesOf(n, a, a, b, d, 0, 0, 0, 5, 18);
    DistancesOf(n, d, d, b, a, 3, 3, 0, 5, 18);
    DistancesOf(n, Cell(1, 0), a, b, d, 1, 0, 1, 4, 13);
    DistancesOf(n, Cell(3, 2), d, b, a, 3, 2, 1, 4, 13);
    DistancesOf(n, Cell(2, 0), a, b, d, 2, 0, 4, 5, 10);
    DistancesOf(n, Cell(3, 1), d, b, a, 3, 1, 4, 5, 10);
    DistancesOf(n, Cell(3, 0), a, b, d, 3, 0, 9, 8, 9);
    DistancesOf(n, Cell(4, 0), a, b, d, 4, 0, 16, 13, 10);
  }

  lemma CornerMissedByName(n: nat, seeds: set<Cell>, reach: int, from: map<Cell, Cell>, a: Cell, b: Cell, d: Cell)
    requires a == Cell(0, 0) && b == Cell(1, 2) && d == Cell(3, 3) && seeds == {a, b, d}
    requires reach >= 9 && Inflated(4, 4, seeds, Named(n), reach, from)
    ensures Cell(3, 0) in from && Named(n)(Cell(3, 0), from[Cell(3, 0)]) == 9 && Named(n)(Cell(3, 0), b) == 8
  {
    CornerDistances(n, a, b, d);
    CornerMissed(seeds, Named(n), reach, from, a, b, d, Cell(3, 0));
  }

  /**
   Three obstacles on a 4 by 4 grid: the corner (3, 0) is nearest to (1, 2), but both its neighbours in that direction
   are nearer to another obstacle. However the scan orders its entries, the corner is inflated with distance 9, not 8.
   */
  lemma NearestIsMissed(seeds: set<Cell>, reach: nat, from: map<Cell, Cell>)
    requires seeds == {Cell(0, 0), Cell(1, 2), Cell(3, 3)} && reach >= 9 && Inflated(4, 4, seeds, Dist, reach, from)
    ensures Cell(3, 0) in from && Dist(Cell(3, 0), from[Cell(3, 0)]) == 9 && Dist(Cell(3, 0), Cell(1, 2)) == 8
  {
    DistanceNamed(reach);
    CornerMissedByName(reach, seeds, reach, from, Cell(0, 0), Cell(1, 2), Cell(3, 3));
  }

  // ---------------------------------------------------------------- a single obstacle

  /** With one obstacle, exactly the in-grid cells within the radius are inflated, all from it. */
  lemma SingleSeedCoversDisc(w: nat, h: nat, s: Cell, dist: Metric, reach: int, from: map<Cell, Cell>)
    requires Geometric(dist) && Inflated(w, h, {s}, dist, reach, from)
    ensures forall c: Cell :: c in from <==> c.x < w && c.y < h && dist(c, s) <= reach
  {
    forall c: Cell | c.x < w && c.y < h && dist(c, s) <= reach ensures c in from {
      SingleSeedReaches(w, h, s, dist, reach, from, c);
    }
  }

  lemma {:induction false} SingleSeedReaches(w: nat, h: nat, s: Cell, dist: Metric, reach: int,
                                             from: map<Cell, Cell>, c: Cell)
    requires Geometric(dist) && Inflated(w, h, {s}, dist, reach, from)
    requires c.x < w && c.y < h && dist(c, s) <= reach
    ensures c in from
    decreases Abs(c.x - s.x) + Abs(c.y - s.y)
  {
    if c != s {
      assert s in from;
      assert Approachable(dist, c, s);
      var q :| Towards(dist, c, s, q);
      SingleSeedReaches(w, h, s, dist, reach, from, q);
      assert from[q] == s;
    }
  }

  // ---------------------------------------------------------------- costs

  predicate Overwrites(inflateUnknown: bool, cost: Cost) {
    if inflateUnknown then cost > FREE_SPACE else cost >= INSCRIBED_INFLATED_OBSTACLE
  }

  /** How the inflated cost meets the cost already in the master grid. */
  function Combine(inflateUnknown: bool, prior: Cost, cost: Cost): Cost {
    if prior == NO_INFORMATION && Overwrites(inflateUnknown, cost) then cost else Max(prior, cost)
  }

  /** What inflation from obstacle `s` does to a cell `c` holding `prior`. */
  function PaintWith(inflateUnknown: bool, cost: int -> Cost, dist: Metric): (Cost, Cell, Cell) -> Cost {
    (prior: Cost, c: Cell, s: Cell) => Combine(inflateUnknown, prior, cost(dist(c, s)))
  }

  /** A half-open rectangle of cells. */
  datatype Box = Box(minI: int, minJ: int, maxI: int, maxJ: int) {
    predicate Contains(c: Cell) {
      minI <= c.x < maxI && minJ <= c.y < maxJ
    }

    /** The area scanned for obstacles: the box grown by the radius, clamped to the grid. */
    function Scan(radius: nat, w: nat, h: nat): Box {
      Box(Max(0, minI - radius), Max(0, minJ - radius), Min(w, maxI + radius), Min(h, maxJ + radius))
    }
  }

  /** No obstacle outside the scanned area is within the radius of a cell of the box. */
  lemma ScanAreaSuffices(box: Box, radius: nat, w: nat, h: nat, c: Cell, s: Cell)
    requires box.Contains(c) && s.x < w && s.y < h
    requires Dist(c, s) <= radius * radius
    ensures box.Scan(radius, w, h).Contains(s)
  {
    DiscInSquare(radius, Offset(c.x - s.x, c.y - s.y));
  }

  predicate IsObstacle(aroundUnknown: bool, cost: Cost) {
    cost == LETHAL_OBSTACLE || (aroundUnknown && cost == NO_INFORMATION)
  }

  /** Every obstacle of the scanned area. */
  ghost function Obstacles(grid: seq<Cost>, w: nat, h: nat, aroundUnknown: bool, scan: Box): set<Cell> {
    set c | c in Cells(w, h) && scan.Contains(c)
            && Index(c.x, c.y, w) < |grid| && IsObstacle(aroundUnknown, At(grid, w, c))
  }

  function At(grid: seq<Cost>, w: nat, c: Cell): Cost
    requires Index(c.x, c.y, w) < |grid|
  {
    grid[Index(c.x, c.y, w)]
  }

  lemma ObstacleHere(grid: seq<Cost>, w: nat, h: nat, aroundUnknown: bool, scan: Box, c: Cell)
    requires |grid| == w * h && scan.Contains(c) && c.x < w && c.y < h
    ensures Index(c.x, c.y, w) < |grid|
    ensures c in Obstacles(grid, w, h, aroundUnknown, scan) <==> IsObstacle(aroundUnknown, At(grid, w, c))
  {
    IndexBound(c.x, c.y, w, h);
  }

  /** `after` is `before` with `apply` used once on each inflated cell of the box, and nothing else changed. */
  ghost predicate Painted(w: nat, h: nat, before: seq<Cost>, after: seq<Cost>, from: map<Cell, Cell>,
                          box: Box, apply: (Cost, Cell, Cell) -> Cost) {
    && |before| == |after| == w * h
    && forall c: Cell :: c.x < w && c.y < h ==>
         && Index(c.x, c.y, w) < w * h
         && At(after, w, c) ==
            if c in from && box.Contains(c) then apply(At(before, w, c), c, from[c]) else At(before, w, c)
  }

  /** One inflation writes only inside the box, and there exactly what brute force over one obstacle writes. */
  lemma SingleSeedMatchesBruteForce(w: nat, h: nat, s: Cell, dist: Metric, reach: int, from: map<Cell, Cell>,
                                    before: seq<Cost>, after: seq<Cost>, box: Box, apply: (Cost, Cell, Cell) -> Cost)
    requires Geometric(dist) && Inflated(w, h, {s}, dist, reach, from)
    requires Painted(w, h, before, after, from, box, apply)
    ensures forall c: Cell :: c.x < w && c.y < h ==>
              && Index(c.x, c.y, w) < w * h
              && At(after, w, c) ==
                 if box.Contains(c) && dist(c, s) <= reach then apply(At(before, w, c), c, s) else At(before, w, c)
  {
    SingleSeedCoversDisc(w, h, s, dist, reach, from);
    assert forall c :: c in from ==> from[c] == s;
  }

  ghost predicate Antitone(cost: int -> Cost) {
    forall m, n :: 0 <= m <= n ==> cost(n) <= cost(m) < NO_INFORMATION
  }

  /** Combining with a larger cost gives a smaller result in one case only: an unknown cell that it overwrites. */
  lemma CombineMonotoneExactly(inflateUnknown: bool, prior: Cost, small: Cost, large: Cost)
    requires small <= large < NO_INFORMATION
    ensures Combine(inflateUnknown, prior, small) <= Combine(inflateUnknown, prior, large) <==>
            !(prior == NO_INFORMATION && !Overwrites(inflateUnknown, small) && Overwrites(inflateUnknown, large))
  {
  }

  /** What inflation from obstacle `s` alone leaves at a cell `c` holding `prior`. */
  function Expected(box: Box, reach: int, inflateUnknown: bool, cost: int -> Cost, dist: Metric, prior: Cost, c: Cell,
                    s: Cell)
    : Cost
  {
    if box.Contains(c) && dist(c, s) <= reach then Combine(inflateUnknown, prior, cost(dist(c, s))) else prior
  }

  /** An unknown cell that the nearest obstacle would have overwritten, but the obstacle that inflated it did not. */
  ghost predicate LeftUnknown(reach: int, from: map<Cell, Cell>, box: Box, inflateUnknown: bool, cost: int -> Cost,
                              dist: Metric, prior: Cost, c: Cell, s: Cell) {
    && prior == NO_INFORMATION && box.Contains(c) && dist(c, s) <= reach
    && Overwrites(inflateUnknown, cost(dist(c, s)))
    && !(c in from && Overwrites(inflateUnknown, cost(dist(c, from[c]))))
  }

  /**
   With any number of obstacles the inflated cost never exceeds that of the nearest one. A known cell is never lowered;
   and a cell ends above inflation from its nearest obstacle in one case only, that of an unknown cell left unknown.
   */
  lemma NeverAboveBruteForce(w: nat, h: nat, seeds: set<Cell>, dist: Metric, reach: int, from: map<Cell, Cell>,
                             before: seq<Cost>, after: seq<Cost>, box: Box, inflateUnknown: bool, cost: int -> Cost,
                             c: Cell, s: Cell)
    requires Geometric(dist) && Inflated(w, h, seeds, dist, reach, from) && Antitone(cost)
    requires Painted(w, h, before, after, from, box, PaintWith(inflateUnknown, cost, dist))
    requires c.x < w && c.y < h && NearestIs(seeds, dist, c, s)
    ensures c in from ==> dist(c, s) <= reach && cost(dist(c, from[c])) <= cost(dist(c, s))
    ensures Index(c.x, c.y, w) < w * h
    ensures At(before, w, c) != NO_INFORMATION ==> At(before, w, c) <= At(after, w, c)
    ensures At(before, w, c) == NO_INFORMATION && !Overwrites(inflateUnknown, cost(dist(c, s))) ==>
              At(after, w, c) == NO_INFORMATION
    ensures At(after, w, c) <= Expected(box, reach, inflateUnknown, cost, dist, At(before, w, c), c, s) <==>
            !LeftUnknown(reach, from, box, inflateUnknown, cost, dist, At(before, w, c), c, s)
  {
    NearestCostBounds(w, h, seeds, dist, reach, from, cost, c, s);
    if c in from {
      CombineMonotoneExactly(inflateUnknown, At(before, w, c), cost(dist(c, from[c])), cost(dist(c, s)));
    }
  }

  lemma NearestCostBounds(w: nat, h: nat, seeds: set<Cell>, dist: Metric, reach: int, from: map<Cell, Cell>,
                          cost: int -> Cost, c: Cell, s: Cell)
    requires Geometric(dist) && Sound(w, h, seeds, dist, reach, from) && Antitone(cost) && NearestIs(seeds, dist, c, s)
    ensures c in from ==> dist(c, s) <= reach && cost(dist(c, from[c])) <= cost(dist(c, s))
  {
  }
}
