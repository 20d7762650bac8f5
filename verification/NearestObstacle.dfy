/**
 When inflation finds the nearest obstacle. The wavefront hands obstacles on from neighbour to neighbour, so whether a
 cell is inflated from its nearest obstacle is a matter of how the cells nearest to that obstacle hang together, and
 can be read off the obstacles and the grid alone.
 */
module NearestObstacle {
  import opened Grid
  import opened Wavefront
  import opened Inflation

  /** `c` lies on the grid and has nearest obstacle `s`, within reach. */
  ghost predicate Reaches(w: nat, h: nat, seeds: set<Cell>, dist: Metric, reach: int, c: Cell, s: Cell) {
    c.x < w && c.y < h && NearestIs(seeds, dist, c, s) && dist(c, s) <= reach
  }

  /** `q` is a neighbour of `c` on the grid, one step towards a nearest obstacle `t` of `c`. */
  ghost predicate StepTo(w: nat, h: nat, seeds: set<Cell>, dist: Metric, c: Cell, t: Cell, q: Cell) {
    q.x < w && q.y < h && Adjacent(q, c) && NearestIs(seeds, dist, c, t) && dist(q, t) < dist(c, t)
  }

  /** Some neighbour towards a nearest obstacle of `c` is nearer to that obstacle than to any other. */
  ghost predicate LinkedAt(w: nat, h: nat, seeds: set<Cell>, dist: Metric, c: Cell) {
    exists t, q :: StepTo(w, h, seeds, dist, c, t, q) && StrictlyNearestIs(seeds, dist, q, t)
  }

  /** Some neighbour towards a nearest obstacle of `c` is at least as near to that obstacle as to any other. */
  ghost predicate TouchingAt(w: nat, h: nat, seeds: set<Cell>, dist: Metric, c: Cell) {
    exists t, q :: StepTo(w, h, seeds, dist, c, t, q) && NearestIs(seeds, dist, q, t)
  }

  /** Every cell within reach, other than an obstacle, is linked to a nearest obstacle. */
  ghost predicate Linked(w: nat, h: nat, seeds: set<Cell>, dist: Metric, reach: int) {
    forall c, s :: Reaches(w, h, seeds, dist, reach, c, s) && c != s ==> LinkedAt(w, h, seeds, dist, c)
  }

  ghost predicate Touching(w: nat, h: nat, seeds: set<Cell>, dist: Metric, reach: int) {
    forall c, s :: Reaches(w, h, seeds, dist, reach, c, s) && c != s ==> TouchingAt(w, h, seeds, dist, c)
  }

  /** No cell within reach is equally near to two obstacles. */
  ghost predicate Untied(w: nat, h: nat, seeds: set<Cell>, dist: Metric, reach: int) {
    forall c, s :: Reaches(w, h, seeds, dist, reach, c, s) ==> StrictlyNearestIs(seeds, dist, c, s)
  }

  /** Every cell within reach is inflated with the distance of its nearest obstacle. */
  ghost predicate Exact(w: nat, h: nat, seeds: set<Cell>, dist: Metric, reach: int, from: map<Cell, Cell>) {
    forall c, s :: Reaches(w, h, seeds, dist, reach, c, s) ==> c in from && dist(c, from[c]) == dist(c, s)
  }

  /** One cell, by induction on its distance. */
  lemma {:induction false} LinkedCellIsExact(w: nat, h: nat, seeds: set<Cell>, dist: Metric, reach: int,
                                             from: map<Cell, Cell>, c: Cell, s: Cell)
    requires Geometric(dist) && Inflated(w, h, seeds, dist, reach, from) && Linked(w, h, seeds, dist, reach)
    requires Reaches(w, h, seeds, dist, reach, c, s)
    ensures c in from && dist(c, from[c]) == dist(c, s)
    decreases dist(c, s)
  {
    if c != s {
      assert LinkedAt(w, h, seeds, dist, c);
      var t, q :| StepTo(w, h, seeds, dist, c, t, q) && StrictlyNearestIs(seeds, dist, q, t);
      assert dist(c, t) == dist(c, s);
      LinkedCellIsExact(w, h, seeds, dist, reach, from, q, t);
      assert from[q] == t;
    }
  }

  /** If every cell is linked, then every cell is inflated from a nearest obstacle. */
  lemma LinkedIsExact(w: nat, h: nat, seeds: set<Cell>, dist: Metric, reach: int, from: map<Cell, Cell>)
    requires Geometric(dist) && Inflated(w, h, seeds, dist, reach, from) && Linked(w, h, seeds, dist, reach)
    ensures Exact(w, h, seeds, dist, reach, from)
  {
    forall c, s | Reaches(w, h, seeds, dist, reach, c, s) ensures c in from && dist(c, from[c]) == dist(c, s) {
      LinkedCellIsExact(w, h, seeds, dist, reach, from, c, s);
    }
  }

  lemma {:induction false} NearestExists(seeds: set<Cell>, dist: Metric, c: Cell) returns (s: Cell)
    requires seeds != {}
    ensures NearestIs(seeds, dist, c, s)
    decreases |seeds|
  {
    var t :| t in seeds;
    if seeds == {t} {
      s := t;
    } else {
      var rest := seeds - {t};
      assert seeds == rest + {t};
      s := NearestExists(rest, dist, c);
      if dist(c, t) < dist(c, s) {
        s := t;
      }
    }
  }

  /** If every cell is inflated from a nearest obstacle, then every cell touches the region of one. */
  lemma ExactIsTouching(w: nat, h: nat, seeds: set<Cell>, dist: Metric, reach: int, from: map<Cell, Cell>)
    requires Geometric(dist) && Inflated(w, h, seeds, dist, reach, from) && Exact(w, h, seeds, dist, reach, from)
    ensures Touching(w, h, seeds, dist, reach)
  {
    forall c, s | Reaches(w, h, seeds, dist, reach, c, s) && c != s ensures TouchingAt(w, h, seeds, dist, c) {
      var t := from[c];
      assert NearestIs(seeds, dist, c, t);
      SeedsAreApart(seeds, dist, c, s);
      assert ReachedFrom(dist, from, c, from[c]);
      var q :| q in from && from[q] == t && Adjacent(q, c) && dist(q, t) < dist(c, t);
      var u := NearestExists(seeds, dist, q);
      assert Reaches(w, h, seeds, dist, reach, q, u);
      assert StepTo(w, h, seeds, dist, c, t, q) && NearestIs(seeds, dist, q, t);
    }
  }

  lemma SeedsAreApart(seeds: set<Cell>, dist: Metric, c: Cell, s: Cell)
    requires Geometric(dist) && NearestIs(seeds, dist, c, s) && c != s
    ensures c !in seeds
  {
  }

  /**
   Where no cell is tied, inflation finds the nearest obstacle of every cell exactly when every cell is linked: a
   condition on the obstacles and the grid.
   */
  lemma ExactExactlyWhenLinked(w: nat, h: nat, seeds: set<Cell>, dist: Metric, reach: int, from: map<Cell, Cell>)
    requires Geometric(dist) && Inflated(w, h, seeds, dist, reach, from) && Untied(w, h, seeds, dist, reach)
    ensures Exact(w, h, seeds, dist, reach, from) <==> Linked(w, h, seeds, dist, reach)
  {
    if Linked(w, h, seeds, dist, reach) {
      LinkedIsExact(w, h, seeds, dist, reach, from);
    }
    if Exact(w, h, seeds, dist, reach, from) {
      ExactIsTouching(w, h, seeds, dist, reach, from);
      forall c, s | Reaches(w, h, seeds, dist, reach, c, s) && c != s ensures LinkedAt(w, h, seeds, dist, c) {
        assert TouchingAt(w, h, seeds, dist, c);
        var t, q :| StepTo(w, h, seeds, dist, c, t, q) && NearestIs(seeds, dist, q, t);
        assert Reaches(w, h, seeds, dist, reach, q, t);
      }
    }
  }

  /** One obstacle is linked to every cell. */
  lemma OneObstacleIsLinked(w: nat, h: nat, s: Cell, dist: Metric, reach: int)
    requires Geometric(dist) && s.x < w && s.y < h
    ensures Linked(w, h, {s}, dist, reach)
  {
    forall c, t | Reaches(w, h, {s}, dist, reach, c, t) && c != t ensures LinkedAt(w, h, {s}, dist, c) {
      assert Approachable(dist, c, s);
      var q :| Towards(dist, c, s, q);
      assert StepTo(w, h, {s}, dist, c, s, q) && StrictlyNearestIs({s}, dist, q, s);
    }
  }

  // ---------------------------------------------------------------- unknown cells

  /** What inflation leaves at an unknown cell `c`. */
  ghost function UnknownAfter(inflateUnknown: bool, cost: int -> Cost, dist: Metric, from: map<Cell, Cell>, c: Cell)
    : Cost
  {
    if c in from then Combine(inflateUnknown, NO_INFORMATION, cost(dist(c, from[c]))) else NO_INFORMATION
  }

  /** No unknown cell within reach ends above inflation from its nearest obstacle. */
  ghost predicate UnknownNeverAbove(w: nat, h: nat, seeds: set<Cell>, dist: Metric, reach: int, from: map<Cell, Cell>,
                                    inflateUnknown: bool, cost: int -> Cost) {
    forall c, s :: Reaches(w, h, seeds, dist, reach, c, s) ==>
      UnknownAfter(inflateUnknown, cost, dist, from, c) <= Combine(inflateUnknown, NO_INFORMATION, cost(dist(c, s)))
  }

  /** The inscribed cost up to distance `d`, and nothing beyond. */
  function StepCost(d: int): int -> Cost {
    (n: int) => if n <= d then INSCRIBED_INFLATED_OBSTACLE else FREE_SPACE
  }

  lemma StepCostIsAntitone(d: int)
    ensures Antitone(StepCost(d))
  {
  }

  /** A cell inflated from farther than its nearest obstacle is left unknown by some falling cost. */
  lemma FartherIsLeftUnknown(w: nat, h: nat, seeds: set<Cell>, dist: Metric, reach: int, from: map<Cell, Cell>,
                             inflateUnknown: bool, c: Cell, s: Cell)
    requires Inflated(w, h, seeds, dist, reach, from) && Reaches(w, h, seeds, dist, reach, c, s)
    requires UnknownNeverAbove(w, h, seeds, dist, reach, from, inflateUnknown, StepCost(dist(c, s)))
    ensures c in from && dist(c, from[c]) == dist(c, s)
  {
    assert UnknownAfter(inflateUnknown, StepCost(dist(c, s)), dist, from, c) <= INSCRIBED_INFLATED_OBSTACLE;
  }

  /**
   Unknown cells stay at or below inflation from the nearest obstacle, for every falling cost, exactly when it is
   found.
   */
  lemma UnknownNeverAboveExactly(w: nat, h: nat, seeds: set<Cell>, dist: Metric, reach: int, from: map<Cell, Cell>,
                                 inflateUnknown: bool)
    requires Inflated(w, h, seeds, dist, reach, from)
    ensures (forall cost :: Antitone(cost) ==> UnknownNeverAbove(w, h, seeds, dist, reach, from, inflateUnknown, cost))
            <==> Exact(w, h, seeds, dist, reach, from)
  {
    if forall cost :: Antitone(cost) ==> UnknownNeverAbove(w, h, seeds, dist, reach, from, inflateUnknown, cost) {
      forall c, s | Reaches(w, h, seeds, dist, reach, c, s) ensures c in from && dist(c, from[c]) == dist(c, s) {
        StepCostIsAntitone(dist(c, s));
        FartherIsLeftUnknown(w, h, seeds, dist, reach, from, inflateUnknown, c, s);
      }
    }
  }

  /** So, where no cell is tied, exactly when every cell is linked. */
  lemma UnknownNeverAboveExactlyWhenLinked(w: nat, h: nat, seeds: set<Cell>, dist: Metric, reach: int,
                                           from: map<Cell, Cell>, inflateUnknown: bool)
    requires Geometric(dist) && Inflated(w, h, seeds, dist, reach, from) && Untied(w, h, seeds, dist, reach)
    ensures (forall cost :: Antitone(cost) ==> UnknownNeverAbove(w, h, seeds, dist, reach, from, inflateUnknown, cost))
            <==> Linked(w, h, seeds, dist, reach)
  {
    UnknownNeverAboveExactly(w, h, seeds, dist, reach, from, inflateUnknown);
    ExactExactlyWhenLinked(w, h, seeds, dist, reach, from);
  }
}
