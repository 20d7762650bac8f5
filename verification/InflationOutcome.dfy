/**
 What a call of `updateCosts` means for the grid, in squared distances and over all obstacles of the grid: when it is
 inflation of every cell from its nearest obstacle, and how it can differ from that.
 */
module InflationOutcome {
  import opened Grid
  import opened Wavefront
  import opened Inflation
  import opened NearestObstacle
  import opened InflationPlugin
  import Plane

  /** Every obstacle of the grid, scanned or not. */
  ghost function AllObstacles(grid: seq<Cost>, w: nat, h: nat, aroundUnknown: bool): set<Cell> {
    Obstacles(grid, w, h, aroundUnknown, Box(0, 0, w, h))
  }

  /** Cells of the box are within the radius of scanned obstacles only. */
  ghost predicate Local(w: nat, h: nat, dist: Metric, box: Box, radius: nat) {
    forall c: Cell, s: Cell :: box.Contains(c) && s.x < w && s.y < h && dist(c, s) <= radius * radius ==>
      box.Scan(radius, w, h).Contains(s)
  }

  lemma NamedIsLocal(n: nat, w: nat, h: nat, box: Box, radius: nat)
    ensures Local(w, h, Named(n), box, radius)
  {
    DistanceNamed(n);
    forall c: Cell, s: Cell | box.Contains(c) && s.x < w && s.y < h && Dist(c, s) <= radius * radius
      ensures box.Scan(radius, w, h).Contains(s)
    {
      ScanAreaSuffices(box, radius, w, h, c, s);
    }
  }

  /** What inflation from the nearest obstacle leaves at `c`: nothing new where the grid has no obstacle. */
  ghost predicate CellIsBruteForce(w: nat, h: nat, all: set<Cell>, dist: Metric, before: seq<Cost>, after: seq<Cost>,
                                   box: Box, reach: int, inflateUnknown: bool, cost: int -> Cost, c: Cell) {
    && Index(c.x, c.y, w) < |before| == |after|
    && (all == {} ==> At(after, w, c) == At(before, w, c))
    && forall s :: NearestIs(all, dist, c, s) ==>
         At(after, w, c) == Expected(box, reach, inflateUnknown, cost, dist, At(before, w, c), c, s)
  }

  /**
   Every cell of the box within the radius of its nearest obstacle was combined with the cost of that distance, and no
   other cell changed.
   */
  ghost predicate BruteForce(w: nat, h: nat, dist: Metric, before: seq<Cost>, after: seq<Cost>, box: Box, radius: nat,
                             aroundUnknown: bool, inflateUnknown: bool, p: CostParams) {
    forall c: Cell :: c.x < w && c.y < h ==>
      CellIsBruteForce(w, h, AllObstacles(before, w, h, aroundUnknown), dist, before, after, box, radius * radius,
                       inflateUnknown, p.ComputeCost, c)
  }

  lemma ScannedAreObstacles(grid: seq<Cost>, w: nat, h: nat, aroundUnknown: bool, box: Box, radius: nat)
    ensures Scanned(grid, w, h, aroundUnknown, box, radius) <= AllObstacles(grid, w, h, aroundUnknown)
    ensures forall s :: s in AllObstacles(grid, w, h, aroundUnknown) && box.Scan(radius, w, h).Contains(s) ==>
      s in Scanned(grid, w, h, aroundUnknown, box, radius)
  {
  }

  /** The scan misses no obstacle within the radius of a cell of the box. */
  lemma NearestIsScanned(w: nat, h: nat, dist: Metric, grid: seq<Cost>, box: Box, radius: nat, aroundUnknown: bool,
                         c: Cell, s: Cell)
    requires Local(w, h, dist, box, radius) && box.Contains(c)
    requires NearestIs(AllObstacles(grid, w, h, aroundUnknown), dist, c, s)
    ensures dist(c, s) <= radius * radius ==> NearestIs(Scanned(grid, w, h, aroundUnknown, box, radius), dist, c, s)
  {
    ScannedAreObstacles(grid, w, h, aroundUnknown, box, radius);
  }

  /** A cell outside the box, or farther than the radius from every obstacle, is not changed. */
  lemma OutOfReachIsUnchanged(w: nat, h: nat, dist: Metric, before: seq<Cost>, after: seq<Cost>, box: Box, radius: nat,
                              aroundUnknown: bool, inflateUnknown: bool, p: CostParams, from: map<Cell, Cell>, c: Cell,
                              s: Cell)
    requires Outcome(w, h, dist, before, after, box, radius, aroundUnknown, inflateUnknown, p, from)
    requires c.x < w && c.y < h && NearestIs(AllObstacles(before, w, h, aroundUnknown), dist, c, s)
    requires !box.Contains(c) || dist(c, s) > radius * radius
    ensures Index(c.x, c.y, w) < |before| == |after| && At(after, w, c) == At(before, w, c)
  {
    ScannedAreObstacles(before, w, h, aroundUnknown, box, radius);
  }

  /** One cell: where the wavefront finds the nearest scanned obstacle, the cell holds what that obstacle leaves. */
  lemma ExactCellIsBruteForce(w: nat, h: nat, dist: Metric, before: seq<Cost>, after: seq<Cost>, box: Box, radius: nat,
                               aroundUnknown: bool, inflateUnknown: bool, p: CostParams, from: map<Cell, Cell>,
                               c: Cell, s: Cell)
    requires Geometric(dist) && Local(w, h, dist, box, radius)
    requires Outcome(w, h, dist, before, after, box, radius, aroundUnknown, inflateUnknown, p, from)
    requires Exact(w, h, Scanned(before, w, h, aroundUnknown, box, radius), dist, radius * radius, from)
    requires c.x < w && c.y < h && NearestIs(AllObstacles(before, w, h, aroundUnknown), dist, c, s)
    ensures Index(c.x, c.y, w) < |before| == |after|
    ensures At(after, w, c) ==
            Expected(box, radius * radius, inflateUnknown, p.ComputeCost, dist, At(before, w, c), c, s)
  {
    if box.Contains(c) && dist(c, s) <= radius * radius {
      NearestIsScanned(w, h, dist, before, box, radius, aroundUnknown, c, s);
      assert Reaches(w, h, Scanned(before, w, h, aroundUnknown, box, radius), dist, radius * radius, c, s);
    } else {
      OutOfReachIsUnchanged(w, h, dist, before, after, box, radius, aroundUnknown, inflateUnknown, p, from, c, s);
    }
  }

  /** Without obstacles nothing changes. */
  lemma NoObstacleNoChange(w: nat, h: nat, dist: Metric, before: seq<Cost>, after: seq<Cost>, box: Box, radius: nat,
                           aroundUnknown: bool, inflateUnknown: bool, p: CostParams, from: map<Cell, Cell>, c: Cell)
    requires Outcome(w, h, dist, before, after, box, radius, aroundUnknown, inflateUnknown, p, from)
    requires c.x < w && c.y < h && AllObstacles(before, w, h, aroundUnknown) == {}
    ensures Index(c.x, c.y, w) < |before| == |after| && At(after, w, c) == At(before, w, c)
  {
    ScannedAreObstacles(before, w, h, aroundUnknown, box, radius);
  }

  lemma ExactIsBruteForce(w: nat, h: nat, dist: Metric, before: seq<Cost>, after: seq<Cost>, box: Box, radius: nat,
                          aroundUnknown: bool, inflateUnknown: bool, p: CostParams, from: map<Cell, Cell>)
    requires Geometric(dist) && Local(w, h, dist, box, radius)
    requires Outcome(w, h, dist, before, after, box, radius, aroundUnknown, inflateUnknown, p, from)
    requires Exact(w, h, Scanned(before, w, h, aroundUnknown, box, radius), dist, radius * radius, from)
    ensures BruteForce(w, h, dist, before, after, box, radius, aroundUnknown, inflateUnknown, p)
  {
    var all := AllObstacles(before, w, h, aroundUnknown);
    forall c: Cell | c.x < w && c.y < h
      ensures CellIsBruteForce(w, h, all, dist, before, after, box, radius * radius, inflateUnknown, p.ComputeCost, c)
    {
      if all == {} {
        NoObstacleNoChange(w, h, dist, before, after, box, radius, aroundUnknown, inflateUnknown, p, from, c);
      } else {
        var t := NearestExists(all, dist, c);
        ExactCellIsBruteForce(w, h, dist, before, after, box, radius, aroundUnknown, inflateUnknown, p, from, c, t);
      }
    }
  }

  /**
   However many obstacles there are: where every cell is linked to a nearest one, `updateCosts` is inflation of every
   cell from its nearest obstacle.
   */
  lemma LinkedInflationIsBruteForce(w: nat, h: nat, before: seq<Cost>, after: seq<Cost>, box: Box, radius: nat,
                                    aroundUnknown: bool, inflateUnknown: bool, p: CostParams, from: map<Cell, Cell>)
    requires HasOutcome(w, h, before, after, box, radius, aroundUnknown, inflateUnknown, p, from)
    requires Linked(w, h, Scanned(before, w, h, aroundUnknown, box, radius), Dist, radius * radius)
    ensures BruteForce(w, h, Dist, before, after, box, radius, aroundUnknown, inflateUnknown, p)
  {
    var n: nat :| Outcome(w, h, Named(n), before, after, box, radius, aroundUnknown, inflateUnknown, p, from);
    NamedIsGeometric(n);
    NamedIsLocal(n, w, h, box, radius);
    DistanceNamed(n);
    LinkedIsExact(w, h, Scanned(before, w, h, aroundUnknown, box, radius), Named(n), radius * radius, from);
    ExactIsBruteForce(w, h, Named(n), before, after, box, radius, aroundUnknown, inflateUnknown, p, from);
  }

  /** With one obstacle in the scanned area, `updateCosts` is inflation from it. */
  lemma OneObstacleInflated(w: nat, h: nat, before: seq<Cost>, after: seq<Cost>, box: Box, radius: nat,
                            aroundUnknown: bool, inflateUnknown: bool, p: CostParams, from: map<Cell, Cell>, s: Cell)
    requires HasOutcome(w, h, before, after, box, radius, aroundUnknown, inflateUnknown, p, from)
    requires Scanned(before, w, h, aroundUnknown, box, radius) == {s}
    ensures BruteForce(w, h, Dist, before, after, box, radius, aroundUnknown, inflateUnknown, p)
  {
    DistIsGeometric();
    assert s in Scanned(before, w, h, aroundUnknown, box, radius);
    OneObstacleIsLinked(w, h, s, Dist, radius * radius);
    LinkedInflationIsBruteForce(w, h, before, after, box, radius, aroundUnknown, inflateUnknown, p, from);
  }

  /** How far a cell can be from inflation of its nearest obstacle `s`, for any number of obstacles. */
  ghost predicate Bounded(w: nat, dist: Metric, before: seq<Cost>, after: seq<Cost>, box: Box, radius: nat,
                          inflateUnknown: bool, p: CostParams, from: map<Cell, Cell>, c: Cell, s: Cell) {
    && Index(c.x, c.y, w) < |before| == |after|
    && (At(before, w, c) != NO_INFORMATION ==> At(before, w, c) <= At(after, w, c))
    && (At(before, w, c) == NO_INFORMATION && !Overwrites(inflateUnknown, p.ComputeCost(dist(c, s))) ==>
        At(after, w, c) == NO_INFORMATION)
    && (At(after, w, c) <=
          Expected(box, radius * radius, inflateUnknown, p.ComputeCost, dist, At(before, w, c), c, s) <==>
        !LeftUnknown(radius * radius, from, box, inflateUnknown, p.ComputeCost, dist, At(before, w, c), c, s))
  }

  lemma CellIsBounded(w: nat, h: nat, dist: Metric, before: seq<Cost>, after: seq<Cost>, box: Box, radius: nat,
                      aroundUnknown: bool, inflateUnknown: bool, p: CostParams, from: map<Cell, Cell>, c: Cell, s: Cell)
    requires Geometric(dist) && Local(w, h, dist, box, radius) && Antitone(p.ComputeCost)
    requires Outcome(w, h, dist, before, after, box, radius, aroundUnknown, inflateUnknown, p, from)
    requires c.x < w && c.y < h && NearestIs(AllObstacles(before, w, h, aroundUnknown), dist, c, s)
    ensures Bounded(w, dist, before, after, box, radius, inflateUnknown, p, from, c, s)
  {
    if box.Contains(c) && dist(c, s) <= radius * radius {
      NearestIsScanned(w, h, dist, before, box, radius, aroundUnknown, c, s);
      NeverAboveBruteForce(w, h, Scanned(before, w, h, aroundUnknown, box, radius), dist, radius * radius, from,
                           before, after, box, inflateUnknown, p.ComputeCost, c, s);
    } else {
      OutOfReachIsUnchanged(w, h, dist, before, after, box, radius, aroundUnknown, inflateUnknown, p, from, c, s);
    }
  }

  /**
   With any number of obstacles a known cell is never lowered, and a cell ends above inflation from the nearest obstacle
   of the grid in one case only: it was unknown, the nearest obstacle would have overwritten it, and the obstacle that
   inflated it did not.
   */
  lemma NeverAboveNearest(w: nat, h: nat, before: seq<Cost>, after: seq<Cost>, box: Box, radius: nat,
                          aroundUnknown: bool, inflateUnknown: bool, p: CostParams, from: map<Cell, Cell>, c: Cell,
                          s: Cell)
    requires HasOutcome(w, h, before, after, box, radius, aroundUnknown, inflateUnknown, p, from) && Falls(p)
    requires c.x < w && c.y < h && NearestIs(AllObstacles(before, w, h, aroundUnknown), Dist, c, s)
    ensures Bounded(w, Dist, before, after, box, radius, inflateUnknown, p, from, c, s)
  {
    var n: nat :| Outcome(w, h, Named(n), before, after, box, radius, aroundUnknown, inflateUnknown, p, from);
    NamedIsGeometric(n);
    NamedIsLocal(n, w, h, box, radius);
    CostIsAntitone(p);
    DistanceNamed(n);
    CellIsBounded(w, h, Named(n), before, after, box, radius, aroundUnknown, inflateUnknown, p, from, c, s);
  }

  // ---------------------------------------------------------------- the costs themselves

  /** The cost `k` written over `prior`: the larger of two known costs, and over unknown only what may replace it. */
  ghost predicate Written(inflateUnknown: bool, prior: Cost, k: Cost, after: Cost) {
    && (prior != 255 ==> after == if prior < k then k else prior)
    && (prior == 255 ==> (after == k <==> (inflateUnknown && k > 0) || k >= 253))
    && (prior == 255 && !(inflateUnknown && k > 0) && k < 253 ==> after == 255)
  }

  lemma CombineWrites(inflateUnknown: bool, prior: Cost, k: Cost)
    ensures Written(inflateUnknown, prior, k, Combine(inflateUnknown, prior, k))
  {
  }

  /** An inflated cell of the box holds what its source's cost leaves of the old one; every other cell is as it was. */
  ghost predicate CellIsWritten(w: nat, dist: Metric, before: seq<Cost>, after: seq<Cost>, box: Box,
                                inflateUnknown: bool, p: CostParams, from: map<Cell, Cell>, c: Cell) {
    && Index(c.x, c.y, w) < |before| == |after|
    && (c in from && box.Contains(c) ==>
          Written(inflateUnknown, At(before, w, c), p.ComputeCost(dist(c, from[c])), At(after, w, c)))
    && (!(c in from && box.Contains(c)) ==> At(after, w, c) == At(before, w, c))
  }

  lemma PaintedIsWritten(w: nat, h: nat, dist: Metric, before: seq<Cost>, after: seq<Cost>, box: Box,
                         inflateUnknown: bool, p: CostParams, from: map<Cell, Cell>, c: Cell)
    requires Painted(w, h, before, after, from, box, PaintWith(inflateUnknown, p.ComputeCost, dist))
    requires c.x < w && c.y < h
    ensures CellIsWritten(w, dist, before, after, box, inflateUnknown, p, from, c)
  {
    if c in from && box.Contains(c) {
      CombineWrites(inflateUnknown, At(before, w, c), p.ComputeCost(dist(c, from[c])));
    }
  }

  /** What a call of `updateCosts` writes to each cell, and where it writes nothing. */
  lemma WrittenCost(w: nat, h: nat, before: seq<Cost>, after: seq<Cost>, box: Box, radius: nat, aroundUnknown: bool,
                    inflateUnknown: bool, p: CostParams, from: map<Cell, Cell>, c: Cell)
    requires HasOutcome(w, h, before, after, box, radius, aroundUnknown, inflateUnknown, p, from) && c.x < w && c.y < h
    ensures CellIsWritten(w, Dist, before, after, box, inflateUnknown, p, from, c)
  {
    var n: nat :| Outcome(w, h, Named(n), before, after, box, radius, aroundUnknown, inflateUnknown, p, from);
    PaintedIsWritten(w, h, Named(n), before, after, box, inflateUnknown, p, from, c);
    DistanceNamed(n);
  }

  /** Which cells are obstacles: the lethal ones, and the unknown ones exactly if they are to be inflated around. */
  lemma ScannedExactly(grid: seq<Cost>, w: nat, h: nat, aroundUnknown: bool, box: Box, radius: nat, c: Cell)
    requires |grid| == w * h
    ensures c in Scanned(grid, w, h, aroundUnknown, box, radius) <==>
      && c.x < w && c.y < h
      && box.minI - radius <= c.x < box.maxI + radius && box.minJ - radius <= c.y < box.maxJ + radius
      && Index(c.x, c.y, w) < |grid|
      && (grid[Index(c.x, c.y, w)] == 254 || (aroundUnknown && grid[Index(c.x, c.y, w)] == 255))
  {
    if c.x < w && c.y < h {
      IndexBound(c.x, c.y, w, h);
    }
  }

  /** The inscribed cost marks exactly the cells no farther away than the inscribed radius, in metres. */
  lemma InscribedInMetres(p: CostParams, d: nat, cells: real)
    requires Falls(p) && p.resolution > 0.0 && p.inscribedRadius >= 0.0 && cells >= 0.0 && cells * cells == d as real
    ensures p.ComputeCost(d) == 254 <==> cells == 0.0
    ensures p.ComputeCost(d) >= 253 <==> cells * p.resolution <= p.inscribedRadius
    ensures p.ComputeCost(d) < 253 ==> p.ComputeCost(d) == p.decay(p.scaling, p.resolution, p.inscribedRadius, d)
  {
    CostMarks(p, d);
    var m := cells * p.resolution;
    InMetres(cells, p.resolution, m, d as real);
    Plane.RootsCompare(m, p.inscribedRadius);
  }

  lemma InMetres(cells: real, resolution: real, m: real, d: real)
    requires cells >= 0.0 && resolution > 0.0 && m == cells * resolution && d == cells * cells
    ensures m >= 0.0 && m * m == d * (resolution * resolution) && (d == 0.0 <==> cells == 0.0)
  {
    assert m * m == (cells * cells) * (resolution * resolution);
  }

  // ---------------------------------------------------------------- an unknown cell that stays unknown

  /** A 4 by 4 grid with obstacles at (0, 0), (1, 2) and (3, 3), whose corner (3, 0) is unknown. */
  ghost predicate UnknownCorner(grid: seq<Cost>) {
    && |grid| == 16 && grid[3] == NO_INFORMATION
    && forall k :: 0 <= k < 16 ==> (grid[k] == LETHAL_OBSTACLE <==> k == 0 || k == 9 || k == 15)
  }

  ghost predicate ThreeCells(a: Cell, b: Cell, d: Cell) {
    a == Cell(0, 0) && b == Cell(1, 2) && d == Cell(3, 3)
  }

  lemma CornerCell(w: nat, a: Cell, b: Cell, d: Cell, c: Cell, k: nat)
    requires w == 4 && ThreeCells(a, b, d) && c.x < w && c.y < w && k == Index(c.x, c.y, w)
    ensures k < 16
    ensures k == 0 || k == 9 || k == 15 <==> c == a || c == b || c == d
  {
  }

  lemma CornerObstacle(w: nat, grid: seq<Cost>, scan: Box, a: Cell, b: Cell, d: Cell, c: Cell, k: nat)
    requires w == 4 && UnknownCorner(grid) && scan == Box(0, 0, w, w) && ThreeCells(a, b, d)
    requires c.x < w && c.y < w && k == Index(c.x, c.y, w)
    ensures c in Obstacles(grid, w, w, false, scan) <==> c == a || c == b || c == d
  {
    CornerCell(w, a, b, d, c, k);
    ObstacleHere(grid, w, w, false, scan, c);
    assert At(grid, w, c) == grid[k];
  }

  lemma OnGrid(grid: seq<Cost>, w: nat, h: nat, scan: Box, c: Cell)
    requires c in Obstacles(grid, w, h, false, scan)
    ensures c.x < w && c.y < h
  {
  }

  lemma TheseThree(seeds: set<Cell>, a: Cell, b: Cell, d: Cell)
    requires forall c :: c in seeds <==> c == a || c == b || c == d
    ensures seeds == {a, b, d}
  {
  }

  lemma CornerObstacles(w: nat, grid: seq<Cost>, scan: Box, a: Cell, b: Cell, d: Cell)
    requires w == 4 && UnknownCorner(grid) && scan == Box(0, 0, w, w) && ThreeCells(a, b, d)
    ensures Obstacles(grid, w, w, false, scan) == {a, b, d}
  {
    forall c ensures c in Obstacles(grid, w, w, false, scan) <==> c == a || c == b || c == d {
      if c in Obstacles(grid, w, w, false, scan) {
        OnGrid(grid, w, w, scan, c);
      }
      if c.x < w && c.y < w {
        CornerObstacle(w, grid, scan, a, b, d, c, Index(c.x, c.y, w));
      }
    }
    TheseThree(Obstacles(grid, w, w, false, scan), a, b, d);
  }

  /** An unknown cell inflated from distance 9, with the inscribed radius between 8 and 9. */
  lemma BetweenDistances(p: CostParams)
    requires Falls(p)
    requires p.Inscribed(8) && !p.Inscribed(9)
    ensures Combine(false, NO_INFORMATION, p.ComputeCost(9)) == NO_INFORMATION
    ensures Combine(false, NO_INFORMATION, p.ComputeCost(8)) == INSCRIBED_INFLATED_OBSTACLE
  {
    CostMarks(p, 9);
    CostMarks(p, 8);
  }

  lemma CornerIsMissed(w: nat, n: nat, seeds: set<Cell>, reach: int, before: seq<Cost>, after: seq<Cost>, box: Box,
                       cost: int -> Cost, from: map<Cell, Cell>, a: Cell, b: Cell, d: Cell, c: Cell)
    requires w == 4 && ThreeCells(a, b, d) && seeds == {a, b, d} && c == Cell(3, 0) && reach >= 9 && box.Contains(c)
    requires Inflated(w, w, seeds, Named(n), reach, from)
    requires Painted(w, w, before, after, from, box, PaintWith(false, cost, Named(n)))
    requires Index(c.x, c.y, w) < |before| == |after| && At(before, w, c) == NO_INFORMATION
    ensures At(after, w, c) == Combine(false, NO_INFORMATION, cost(9))
  {
    CornerMissedByName(n, seeds, reach, from, a, b, d);
  }

  lemma NearestOfThree(seeds: set<Cell>, dist: Metric, a: Cell, b: Cell, d: Cell, c: Cell)
    requires seeds == {a, b, d} && dist(c, b) <= dist(c, a) && dist(c, b) <= dist(c, d)
    ensures NearestIs(seeds, dist, c, b)
  {
  }

  lemma CornerNearest(n: nat, seeds: set<Cell>, a: Cell, b: Cell, d: Cell, c: Cell)
    requires ThreeCells(a, b, d) && seeds == {a, b, d} && c == Cell(3, 0)
    ensures NearestIs(seeds, Named(n), c, b) && Named(n)(c, b) == 8
  {
    DistancesOf(n, c, a, b, d, 3, 0, 9, 8, 9);
    NearestOfThree(seeds, Named(n), a, b, d, c);
  }

  lemma AtLeastNine(radius: nat)
    requires radius >= 3
    ensures radius * radius >= 9
  {
    assert radius * radius >= 3 * radius;
  }

  lemma CornerScanned(w: nat, before: seq<Cost>, box: Box, radius: nat, a: Cell, b: Cell, d: Cell)
    requires w == 4 && UnknownCorner(before) && box == Box(0, 0, w, w) && ThreeCells(a, b, d)
    ensures Scanned(before, w, w, false, box, radius) == {a, b, d}
  {
    assert box.Scan(radius, w, w) == box;
    CornerObstacles(w, before, box, a, b, d);
  }

  lemma CornerHolds(w: nat, before: seq<Cost>, c: Cell)
    requires w == 4 && UnknownCorner(before) && c == Cell(3, 0)
    ensures Index(c.x, c.y, w) < |before| && At(before, w, c) == NO_INFORMATION
  {
    assert Index(c.x, c.y, w) == 3;
  }

  lemma CornerStaysUnknown(w: nat, n: nat, before: seq<Cost>, after: seq<Cost>, box: Box, radius: nat, p: CostParams,
                           from: map<Cell, Cell>, a: Cell, b: Cell, d: Cell, c: Cell)
    requires w == 4 && Outcome(w, w, Named(n), before, after, box, radius, false, false, p, from)
    requires ThreeCells(a, b, d) && Scanned(before, w, w, false, box, radius) == {a, b, d} && radius * radius >= 9
    requires c == Cell(3, 0) && box.Contains(c) && Index(c.x, c.y, w) < |before| && At(before, w, c) == NO_INFORMATION
    ensures Index(c.x, c.y, w) < |after| && At(after, w, c) == Combine(false, NO_INFORMATION, p.ComputeCost(9))
  {
    CornerIsMissed(w, n, Scanned(before, w, w, false, box, radius), radius * radius, before, after, box, p.ComputeCost,
                   from, a, b, d, c);
  }

  lemma CornerExpected(w: nat, n: nat, before: seq<Cost>, box: Box, reach: int, cost: int -> Cost, b: Cell, c: Cell)
    requires w == 4 && UnknownCorner(before) && box == Box(0, 0, w, w)
    requires reach >= 9 && b == Cell(1, 2) && c == Cell(3, 0)
    ensures NearestIs(AllObstacles(before, w, w, false), Named(n), c, b)
    ensures Expected(box, reach, false, cost, Named(n), NO_INFORMATION, c, b) == Combine(false, NO_INFORMATION, cost(8))
  {
    var a, d := Cell(0, 0), Cell(3, 3);
    CornerObstacles(w, before, box, a, b, d);
    CornerNearest(n, AllObstacles(before, w, w, false), a, b, d, c);
  }

  /**
   Where the inscribed radius separates distance 8 from distance 9, the corner stays unknown although its nearest
   obstacle would have made it inscribed.
   */
  lemma UnknownIsMissed(w: nat, before: seq<Cost>, after: seq<Cost>, box: Box, radius: nat, p: CostParams,
                        from: map<Cell, Cell>, b: Cell, c: Cell)
    requires w == 4 && UnknownCorner(before) && box == Box(0, 0, w, w)
    requires radius >= 3 && b == Cell(1, 2) && c == Cell(3, 0)
    requires HasOutcome(w, w, before, after, box, radius, false, false, p, from)
    requires Falls(p) && p.Inscribed(8) && !p.Inscribed(9)
    ensures Index(c.x, c.y, w) < |after| && At(after, w, c) == NO_INFORMATION
    ensures NearestIs(AllObstacles(before, w, w, false), Dist, c, b)
    ensures Expected(box, radius * radius, false, p.ComputeCost, Dist, NO_INFORMATION, c, b) ==
            INSCRIBED_INFLATED_OBSTACLE
  {
    var n: nat :| Outcome(w, w, Named(n), before, after, box, radius, false, false, p, from);
    AtLeastNine(radius);
    BetweenDistances(p);
    var a, d := Cell(0, 0), Cell(3, 3);
    CornerScanned(w, before, box, radius, a, b, d);
    CornerHolds(w, before, c);
    CornerStaysUnknown(w, n, before, after, box, radius, p, from, a, b, d, c);
    CornerExpected(w, n, before, box, radius * radius, p.ComputeCost, b, c);
    DistanceNamed(n);
  }
}
