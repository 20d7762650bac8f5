/**
 Looking ahead (`transformPoints`, `projectState`, `Polygon::getCollisionTime`, `Circle::getPointsInside`): the robot
 is moved in fixed time steps until enough obstacle points lie in its zone.
 */
module CollisionTime {
  import opened Plane
  import opened RayCrossing

  datatype Pose = Pose(x: real, y: real, theta: real)

  datatype Velocity = Velocity(x: real, y: real, tw: real) {
    function Scaled(k: real): Velocity {
      Velocity(x * k, y * k, tw * k)
    }

    function NormSquared(): real {
      x * x + y * y + tw * tw
    }

    predicate IsZero() {
      x == 0.0 && y == 0.0 && tw == 0.0
    }
  }

  /** The library functions the source relies on; all that is used of them is the identity of Pythagoras. */
  datatype Trig = Trig(cos: real -> real, sin: real -> real) {
    ghost predicate Valid() {
      forall t :: cos(t) * cos(t) + sin(t) * sin(t) == 1.0
    }
  }

  // ---------------------------------------------------------------- the frame of a pose

  /** A point as seen from a pose whose heading has cosine `c` and sine `s`. */
  function Seen(c: real, s: real, pose: Pose, p: Point): Point {
    var mx, my := p.x - pose.x, p.y - pose.y;
    Point(mx * c + my * s, -mx * s + my * c)
  }

  function SeenFrom(trig: Trig, pose: Pose, p: Point): Point {
    Seen(trig.cos(pose.theta), trig.sin(pose.theta), pose, p)
  }

  /** `transformPoints`: every point is overwritten by what it looks like from the pose. */
  method TransformPoints(trig: Trig, pose: Pose, points: seq<Point>) returns (seen: seq<Point>)
    ensures |seen| == |points| && forall i :: 0 <= i < |points| ==> seen[i] == SeenFrom(trig, pose, points[i])
  {
    var c, s := trig.cos(pose.theta), trig.sin(pose.theta);
    seen := points;
    for i := 0 to |points|
      invariant |seen| == |points|
      invariant forall j :: 0 <= j < i ==> seen[j] == SeenFrom(trig, pose, points[j])
      invariant forall j :: i <= j < |points| ==> seen[j] == points[j]
    {
      var mulX, mulY := seen[i].x - pose.x, seen[i].y - pose.y;
      seen := seen[i := Point(mulX * c + mulY * s, -mulX * s + mulY * c)];
    }
  }

  /** Rotating a vector keeps its length. */
  lemma RotationKeepsLength(a: real, b: real, c: real, s: real) returns (u: real, v: real)
    requires c * c + s * s == 1.0
    ensures u == a * c + b * s && v == -a * s + b * c && Square(u) + Square(v) == Square(a) + Square(b)
  {
    u, v := a * c + b * s, -a * s + b * c;
    var ac, bs, as', bc := a * c, b * s, a * s, b * c;
    assert u * u == ac * ac + 2.0 * (ac * bs) + bs * bs;
    assert v * v == as' * as' - 2.0 * (as' * bc) + bc * bc;
    assert ac * bs == as' * bc;
    Together(a, c, s);
    Together(b, c, s);
  }

  lemma Together(a: real, c: real, s: real)
    requires c * c + s * s == 1.0
    ensures (a * c) * (a * c) + (a * s) * (a * s) == a * a
  {
    assert (a * c) * (a * c) == (a * a) * (c * c);
    assert (a * s) * (a * s) == (a * a) * (s * s);
    assert (a * a) * (c * c) + (a * a) * (s * s) == (a * a) * (c * c + s * s);
  }

  /** The distance of a point from the robot does not depend on the heading. */
  lemma SeenDistance(trig: Trig, pose: Pose, p: Point)
    requires trig.Valid()
    ensures var q := SeenFrom(trig, pose, p); Square(q.x) + Square(q.y) == DistanceSquared(p, Point(pose.x, pose.y))
  {
    var c, s := trig.cos(pose.theta), trig.sin(pose.theta);
    var u, v := RotationKeepsLength(p.x - pose.x, p.y - pose.y, c, s);
  }

  /** Rotating back and adding the pose gives the point in the first frame again. */
  lemma SeenUndone(trig: Trig, pose: Pose, p: Point)
    requires trig.Valid()
    ensures var c, s, q := trig.cos(pose.theta), trig.sin(pose.theta), SeenFrom(trig, pose, p);
      q.x * c - q.y * s + pose.x == p.x && q.x * s + q.y * c + pose.y == p.y
  {
    var c, s := trig.cos(pose.theta), trig.sin(pose.theta);
    Unrotate(p.x - pose.x, p.y - pose.y, c, s);
  }

  lemma Unrotate(a: real, b: real, c: real, s: real)
    requires c * c + s * s == 1.0
    ensures (a * c + b * s) * c - (-a * s + b * c) * s == a
    ensures (a * c + b * s) * s + (-a * s + b * c) * c == b
  {
    assert (a * c + b * s) * c == a * (c * c) + b * s * c;
    assert (-a * s + b * c) * s == -(a * (s * s)) + b * s * c;
    assert (a * c + b * s) * s == a * s * c + b * (s * s);
    assert (-a * s + b * c) * c == -(a * s * c) + b * (c * c);
    assert a * (c * c) + a * (s * s) == a * (c * c + s * s);
    assert b * (c * c) + b * (s * s) == b * (c * c + s * s);
  }

  // ---------------------------------------------------------------- the simulation

  datatype State = State(pose: Pose, vel: Velocity)

  function Moved(p: real, v: real, dt: real): real {
    p + v * dt
  }

  /** The linear velocity turned by an angle with cosine `c` and sine `s`. */
  function Turned(v: Velocity, c: real, s: real): Velocity {
    Velocity(v.x * c - v.y * s, v.x * s + v.y * c, v.tw)
  }

  /** The angle turned in one step. */
  function TurnOf(v: Velocity, dt: real): real {
    v.tw * dt
  }

  function Step(trig: Trig, dt: real, st: State): State {
    var theta := TurnOf(st.vel, dt);
    State(Pose(Moved(st.pose.x, st.vel.x, dt), Moved(st.pose.y, st.vel.y, dt), st.pose.theta + theta),
          Turned(st.vel, trig.cos(theta), trig.sin(theta)))
  }

  /** `projectState`: pose and velocity are overwritten by those one step later. */
  method ProjectState(trig: Trig, dt: real, st: State) returns (st': State)
    ensures st' == Step(trig, dt, st)
  {
    st' := st;
    var theta := TurnOf(st.vel, dt);
    var c, s := trig.cos(theta), trig.sin(theta);
    st' := st'.(pose := Pose(Moved(st.pose.x, st.vel.x, dt), Moved(st.pose.y, st.vel.y, dt), st.pose.theta));
    st' := st'.(pose := st'.pose.(theta := st'.pose.theta + theta));
    st' := st'.(vel := Turned(st.vel, c, s));
  }

  /** The simulated state after `k` steps from the robot's own frame. */
  function Simulated(trig: Trig, dt: real, vel: Velocity, k: nat): State {
    if k == 0 then State(Pose(0.0, 0.0, 0.0), vel) else Step(trig, dt, Simulated(trig, dt, vel, k - 1))
  }

  lemma StepKeepsSpeed(trig: Trig, dt: real, st: State)
    requires trig.Valid()
    ensures Speed(Step(trig, dt, st).vel) == Speed(st.vel)
  {
    var theta := TurnOf(st.vel, dt);
    var u, v := RotationKeepsLength(st.vel.x, st.vel.y, trig.cos(theta), -trig.sin(theta));
  }

  function Speed(v: Velocity): real {
    Square(v.x) + Square(v.y)
  }

  /** The simulated speed never changes, nor does the turning rate. */
  lemma {:induction false} SpeedIsConstant(trig: Trig, dt: real, vel: Velocity, k: nat)
    requires trig.Valid()
    ensures Speed(Simulated(trig, dt, vel, k).vel) == Speed(vel) && Simulated(trig, dt, vel, k).vel.tw == vel.tw
  {
    if k > 0 {
      SpeedIsConstant(trig, dt, vel, k - 1);
      StepKeepsSpeed(trig, dt, Simulated(trig, dt, vel, k - 1));
    }
  }

  function Position(pose: Pose): Point {
    Point(pose.x, pose.y)
  }

  /** The squared way covered in one step at a squared speed. */
  function WaySquared(dt: real, speed: real): real {
    Square(dt) * speed
  }

  /** Every step is as long as the first. */
  lemma StepsAreEven(trig: Trig, dt: real, vel: Velocity, k: nat)
    requires trig.Valid()
    ensures DistanceSquared(Position(Simulated(trig, dt, vel, k + 1).pose),
                            Position(Simulated(trig, dt, vel, k).pose)) ==
            WaySquared(dt, Speed(vel))
  {
    SpeedIsConstant(trig, dt, vel, k);
    StepMoves(trig, dt, Simulated(trig, dt, vel, k));
  }

  lemma StepMoves(trig: Trig, dt: real, st: State)
    ensures DistanceSquared(Position(Step(trig, dt, st).pose), Position(st.pose)) == WaySquared(dt, Speed(st.vel))
  {
    var dx := Way(st.pose.x, st.vel.x, dt);
    var dy := Way(st.pose.y, st.vel.y, dt);
  }

  lemma Way(p: real, v: real, dt: real) returns (d: real)
    ensures d == Moved(p, v, dt) - p && Square(d) == Square(dt) * Square(v)
  {
    d := v * dt;
    assert d * d == (dt * dt) * (v * v);
  }

  /** The cosine and sine of a sum. */
  ghost predicate SumFormula(trig: Trig, a: real, b: real) {
    && trig.cos(a + b) == trig.cos(a) * trig.cos(b) - trig.sin(a) * trig.sin(b)
    && trig.sin(a + b) == trig.sin(a) * trig.cos(b) + trig.cos(a) * trig.sin(b)
  }

  ghost predicate Angles(trig: Trig) {
    && trig.cos(0.0) == 1.0 && trig.sin(0.0) == 0.0
    && forall a, b {:trigger SumFormula(trig, a, b)} :: SumFormula(trig, a, b)
  }

  lemma TurnedTwice(v: Velocity, c: real, s: real, c': real, s': real, cc: real, ss: real)
    requires cc == c * c' - s * s' && ss == s * c' + c * s'
    ensures Turned(Turned(v, c, s), c', s') == Turned(v, cc, ss)
  {
    TurnedOnce(v.x, v.y, c, s, c', s', cc, ss);
  }

  lemma TurnedOnce(x: real, y: real, c: real, s: real, c': real, s': real, cc: real, ss: real)
    requires cc == c * c' - s * s' && ss == s * c' + c * s'
    ensures (x * c - y * s) * c' - (x * s + y * c) * s' == x * cc - y * ss
    ensures (x * c - y * s) * s' + (x * s + y * c) * c' == x * ss + y * cc
  {
    assert x * cc == x * (c * c') - x * (s * s') && y * ss == y * (s * c') + y * (c * s');
    assert x * ss == x * (s * c') + x * (c * s') && y * cc == y * (c * c') - y * (s * s');
  }

  /** A velocity given in the frame of a robot with this heading, in the first frame. */
  function Facing(trig: Trig, v: Velocity, theta: real): Velocity {
    Turned(v, trig.cos(theta), trig.sin(theta))
  }

  lemma FacingTwice(trig: Trig, v: Velocity, a: real, b: real)
    requires Angles(trig)
    ensures Facing(trig, Facing(trig, v, a), b) == Facing(trig, v, a + b)
  {
    assert SumFormula(trig, a, b);
    TurnedTwice(v, trig.cos(a), trig.sin(a), trig.cos(b), trig.sin(b), trig.cos(a + b), trig.sin(a + b));
  }

  /** The simulated robot always drives the commanded velocity, as seen in its own frame: only the frame turns. */
  lemma {:induction false} CommandInOwnFrame(trig: Trig, dt: real, vel: Velocity, k: nat)
    requires Angles(trig)
    ensures Simulated(trig, dt, vel, k).vel == Facing(trig, vel, Simulated(trig, dt, vel, k).pose.theta)
  {
    if k > 0 {
      CommandInOwnFrame(trig, dt, vel, k - 1);
      StepFaces(trig, dt, Simulated(trig, dt, vel, k - 1), vel);
    }
  }

  lemma StepFaces(trig: Trig, dt: real, st: State, vel: Velocity)
    requires Angles(trig) && st.vel == Facing(trig, vel, st.pose.theta)
    ensures Step(trig, dt, st).vel == Facing(trig, vel, Step(trig, dt, st).pose.theta)
  {
    FacingTwice(trig, vel, st.pose.theta, TurnOf(st.vel, dt));
  }

  /** The heading after `k` steps, and the velocity: the command turned by that heading. */
  lemma Heading(trig: Trig, dt: real, vel: Velocity, k: nat) returns (theta: real)
    requires Angles(trig)
    ensures theta == k as real * (vel.tw * dt)
    ensures var st := Simulated(trig, dt, vel, k);
      && st.pose.theta == theta && st.vel.tw == vel.tw
      && st.vel.x == vel.x * trig.cos(theta) - vel.y * trig.sin(theta)
      && st.vel.y == vel.x * trig.sin(theta) + vel.y * trig.cos(theta)
  {
    theta := Simulated(trig, dt, vel, k).pose.theta;
    CommandInOwnFrame(trig, dt, vel, k);
    HeadingOnly(trig, dt, vel, k, vel.tw * dt);
  }

  lemma {:induction false} HeadingOnly(trig: Trig, dt: real, vel: Velocity, k: nat, turn: real)
    requires turn == vel.tw * dt
    ensures Simulated(trig, dt, vel, k).pose.theta == k as real * turn && Simulated(trig, dt, vel, k).vel.tw == vel.tw
  {
    if k > 0 {
      HeadingOnly(trig, dt, vel, k - 1, turn);
      OneMore((k - 1) as real, turn);
    }
  }

  /** The loop's clock after `k` additions of the step. */
  function TimeOf(dt: real, k: nat): real {
    if k == 0 then 0.0 else TimeOf(dt, k - 1) + dt
  }

  lemma {:induction false} TimeIsMultiple(dt: real, k: nat)
    ensures TimeOf(dt, k) == k as real * dt
  {
    if k > 0 {
      TimeIsMultiple(dt, k - 1);
      var r := (k - 1) as real;
      assert k as real == r + 1.0;
      OneMore(r, dt);
    }
  }

  lemma OneMore(r: real, dt: real)
    ensures (r + 1.0) * dt == r * dt + dt
  {
  }

  lemma {:induction false} InstantsAreOrdered(j: nat, k: nat, dt: real)
    requires j <= k && dt >= 0.0
    ensures TimeOf(dt, j) <= TimeOf(dt, k)
  {
    if j < k {
      InstantsAreOrdered(j, k - 1, dt);
    }
  }

  /** How far a velocity carries in a time. */
  function Travelled(v: real, t: real): real {
    v * t
  }

  lemma Onward(v: real, t: real, dt: real)
    ensures Moved(Travelled(v, t), v, dt) == Travelled(v, t + dt)
  {
  }

  /** A robot that does not turn is found straight ahead, velocity times time away. */
  lemma {:induction false} StraightAhead(trig: Trig, dt: real, vel: Velocity, k: nat)
    requires trig.cos(0.0) == 1.0 && trig.sin(0.0) == 0.0 && vel.tw == 0.0
    ensures var t := TimeOf(dt, k);
      Simulated(trig, dt, vel, k) == State(Pose(Travelled(vel.x, t), Travelled(vel.y, t), 0.0), vel)
  {
    if k > 0 {
      StraightAhead(trig, dt, vel, k - 1);
      Onward(vel.x, TimeOf(dt, k - 1), dt);
      Onward(vel.y, TimeOf(dt, k - 1), dt);
      NoTurn(vel, dt);
    }
  }

  lemma NoTurn(v: Velocity, dt: real)
    requires v.tw == 0.0
    ensures TurnOf(v, dt) == 0.0 && Turned(v, 1.0, 0.0) == v
  {
  }

  lemma {:induction false} PlaceAhead(trig: Trig, dt: real, vel: Velocity, k: nat) returns (t: real)
    requires trig.cos(0.0) == 1.0 && trig.sin(0.0) == 0.0 && vel.tw == 0.0
    ensures t == k as real * dt && Simulated(trig, dt, vel, k).pose == Pose(vel.x * t, vel.y * t, 0.0)
  {
    StraightAhead(trig, dt, vel, k);
    TimeIsMultiple(dt, k);
    t := TimeOf(dt, k);
  }

  // ---------------------------------------------------------------- zones

  datatype Shape = Polygon(vertices: seq<Point>) | Circle(radius: real)

  /** A point in the robot's frame counts for the zone. */
  predicate InZone(shape: Shape, p: Point) {
    match shape
    case Polygon(vertices) => Inside(vertices, p)
    case Circle(radius) => p.x * p.x + p.y * p.y < radius * radius
  }

  function ZoneOf(shape: Shape): Point -> bool {
    p => InZone(shape, p)
  }

  function CountIn(shape: Shape, points: seq<Point>): nat {
    Count(points, ZoneOf(shape))
  }

  /** `Circle::getPointsInside`. */
  method CirclePointsInside(radius: real, points: seq<Point>) returns (num: nat)
    ensures num == CountIn(Circle(radius), points)
  {
    num := 0;
    var radiusSquared := radius * radius;
    for k := 0 to |points|
      invariant num == CountIn(Circle(radius), points[..k])
    {
      if points[k].x * points[k].x + points[k].y * points[k].y < radiusSquared {
        num := num + 1;
      }
      assert points[..k + 1][..k] == points[..k];
    }
    assert points[..|points|] == points;
  }

  /** The virtual call. */
  method PointsInside(shape: Shape, points: seq<Point>) returns (num: nat)
    ensures num == CountIn(shape, points)
  {
    match shape
    case Polygon(vertices) =>
      num := GetPointsInside(vertices, points);
      CountOfSame(points, p => Inside(vertices, p), ZoneOf(shape));
    case Circle(radius) =>
      num := CirclePointsInside(radius, points);
  }

  lemma {:induction false} CountOfSame(points: seq<Point>, f: Point -> bool, g: Point -> bool)
    requires forall p :: f(p) == g(p)
    ensures Count(points, f) == Count(points, g)
  {
    if points != [] {
      CountOfSame(points[..|points| - 1], f, g);
    }
  }

  /** The points as seen from a pose, all at once. */
  function AllSeen(trig: Trig, pose: Pose, points: seq<Point>): seq<Point> {
    seq(|points|, i requires 0 <= i < |points| => SeenFrom(trig, pose, points[i]))
  }

  /** What the look-ahead works on. */
  datatype Scene = Scene(shape: Shape, trig: Trig, dt: real, vel: Velocity, points: seq<Point>, minPoints: int,
                         horizon: real) {
    function Instant(k: nat): real {
      TimeOf(dt, k)
    }

    /**
     Enough points are in the zone once the robot has moved `k + 1` steps: the `k`-th instant is looked at after its
     step.
     */
    predicate Hits(k: nat) {
      CountIn(shape, AllSeen(trig, Simulated(trig, dt, vel, k + 1).pose, points)) >= minPoints
    }

    /** The first instant of the simulation, up to the horizon, at which the zone is hit. */
    ghost predicate FirstHit(k: nat) {
      Instant(k) <= horizon && Hits(k) && forall j: nat :: j < k ==> !Hits(j)
    }
  }

  /** `getCollisionTime`. */
  method GetCollisionTime(scene: Scene) returns (t: real)
    requires scene.dt > 0.0
    ensures t == -1.0 || 0.0 <= t <= scene.horizon
    ensures t != -1.0 ==> exists k: nat :: scene.FirstHit(k) && t == scene.Instant(k)
    ensures t == -1.0 ==> forall k: nat :: scene.Instant(k) <= scene.horizon ==> !scene.Hits(k)
  {
    var st := State(Pose(0.0, 0.0, 0.0), scene.vel);
    var time := 0.0;
    ghost var k: nat := 0;
    while time <= scene.horizon
      invariant time == scene.Instant(k) && time >= 0.0 && st == Simulated(scene.trig, scene.dt, scene.vel, k)
      invariant forall j: nat :: j < k ==> !scene.Hits(j)
      decreases Remaining(scene.horizon, scene.dt, k)
    {
      var hit;
      st, hit := Advance(scene, st, k);
      if hit {
        assert scene.FirstHit(k);
        return time;
      }
      WithinReach(scene.horizon, scene.dt, k);
      k := k + 1;
      time := time + scene.dt;
    }
    forall j: nat | scene.Instant(j) <= scene.horizon ensures !scene.Hits(j) {
      if k <= j {
        InstantsAreOrdered(k, j, scene.dt);
      }
    }
    t := -1.0;
  }

  /** One pass of the loop: move the robot, then look. */
  method Advance(scene: Scene, st: State, ghost k: nat) returns (st': State, hit: bool)
    requires st == Simulated(scene.trig, scene.dt, scene.vel, k)
    ensures st' == Simulated(scene.trig, scene.dt, scene.vel, k + 1) && hit == scene.Hits(k)
  {
    st' := ProjectState(scene.trig, scene.dt, st);
    var seen := TransformPoints(scene.trig, st'.pose, scene.points);
    assert seen == AllSeen(scene.trig, st'.pose, scene.points);
    var num := PointsInside(scene.shape, seen);
    hit := num >= scene.minPoints;
  }

  function Remaining(horizon: real, dt: real, k: nat): int
    requires dt > 0.0
  {
    (horizon / dt).Floor + 1 - k
  }

  lemma WithinReach(horizon: real, dt: real, k: nat)
    requires dt > 0.0 && TimeOf(dt, k) <= horizon
    ensures Remaining(horizon, dt, k) > 0
  {
    TimeIsMultiple(dt, k);
    Quotient(horizon, dt, k as real);
  }

  lemma Quotient(horizon: real, dt: real, r: real)
    requires dt > 0.0 && r * dt <= horizon
    ensures r <= horizon / dt
  {
    var q := horizon / dt;
    var d := r - q;
    assert d * dt == r * dt - horizon;
    assert d > 0.0 ==> d * dt > 0.0;
  }

  /** For a circle, what counts is the distance from the simulated position, whatever the heading. */
  lemma CircleIgnoresHeading(radius: real, trig: Trig, pose: Pose, points: seq<Point>)
    requires trig.Valid()
    ensures CountIn(Circle(radius), AllSeen(trig, pose, points)) ==
            Count(points, p => DistanceSquared(p, Point(pose.x, pose.y)) < radius * radius)
  {
    CountThrough(points, AllSeen(trig, pose, points), p => DistanceSquared(p, Point(pose.x, pose.y)) < radius * radius,
                 ZoneOf(Circle(radius))) by {
      forall i | 0 <= i < |points|
        ensures InZone(Circle(radius), AllSeen(trig, pose, points)[i]) ==
                (DistanceSquared(points[i], Point(pose.x, pose.y)) < radius * radius)
      {
        SeenDistance(trig, pose, points[i]);
      }
    }
  }

  lemma {:induction false} CountThrough(ps: seq<Point>, qs: seq<Point>, f: Point -> bool, g: Point -> bool)
    requires |ps| == |qs| && forall i :: 0 <= i < |ps| ==> g(qs[i]) == f(ps[i])
    ensures Count(qs, g) == Count(ps, f)
  {
    if ps != [] {
      CountThrough(ps[..|ps| - 1], qs[..|qs| - 1], f, g);
    }
  }

  /** Counting goes list by list. */
  lemma {:induction false} CountOfBoth(ps: seq<Point>, qs: seq<Point>, f: Point -> bool)
    ensures Count(ps + qs, f) == Count(ps, f) + Count(qs, f)
  {
    if qs == [] {
      assert ps + qs == ps;
    } else {
      var n := |qs| - 1;
      CountOfBoth(ps, qs[..n], f);
      assert (ps + qs)[..|ps + qs| - 1] == ps + qs[..n];
    }
  }

  /** And point by point: each point that is asked for counts once. */
  lemma CountOfOne(p: Point, f: Point -> bool)
    ensures Count([p], f) == if f(p) then 1 else 0
  {
    assert [p][..0] == [];
  }

  /** A list without one of its points, and what that does to the count. */
  lemma CountWithout(qs: seq<Point>, p: Point, f: Point -> bool) returns (rest: seq<Point>)
    requires p in qs
    ensures multiset(rest) == multiset(qs) - multiset{p} && Count(qs, f) == Count(rest, f) + if f(p) then 1 else 0
  {
    var j :| 0 <= j < |qs| && qs[j] == p;
    rest := qs[..j] + qs[j + 1..];
    assert qs == qs[..j] + ([p] + qs[j + 1..]);
    CountOfBoth(qs[..j], [p] + qs[j + 1..], f);
    CountOfBoth([p], qs[j + 1..], f);
    CountOfBoth(qs[..j], qs[j + 1..], f);
    CountOfOne(p, f);
  }

  /** More points, in whatever order, are never fewer that count. */
  lemma {:induction false} CountOfMore(ps: seq<Point>, qs: seq<Point>, f: Point -> bool)
    requires multiset(ps) <= multiset(qs)
    ensures Count(ps, f) <= Count(qs, f)
  {
    if ps != [] {
      var n := |ps| - 1;
      assert ps == ps[..n] + [ps[n]];
      assert ps[n] in multiset(qs);
      var rest := CountWithout(qs, ps[n], f);
      CountOfMore(ps[..n], rest, f);
    }
  }

  /** The points that lie in a zone as seen from a pose. */
  function SeenIn(zone: Point -> bool, trig: Trig, pose: Pose): Point -> bool {
    (p: Point) => zone(SeenFrom(trig, pose, p))
  }

  /** The points in a zone, counted where they are. */
  lemma CountSeen(zone: Point -> bool, trig: Trig, pose: Pose, points: seq<Point>)
    ensures Count(AllSeen(trig, pose, points), zone) == Count(points, SeenIn(zone, trig, pose))
  {
    CountThrough(points, AllSeen(trig, pose, points), SeenIn(zone, trig, pose), zone);
  }

  /** Further obstacle points never turn a hit into a miss. */
  lemma MorePointsStillHit(scene: Scene, points: seq<Point>, k: nat)
    requires scene.Hits(k) && multiset(scene.points) <= multiset(points)
    ensures scene.(points := points).Hits(k)
  {
    var zone, pose := ZoneOf(scene.shape), Simulated(scene.trig, scene.dt, scene.vel, k + 1).pose;
    CountSeen(zone, scene.trig, pose, scene.points);
    CountSeen(zone, scene.trig, pose, points);
    CountOfMore(scene.points, points, SeenIn(zone, scene.trig, pose));
  }

  /** Nor do they put the first hit off. */
  lemma MorePointsHitNoLater(scene: Scene, points: seq<Point>, k: nat) returns (k': nat, t': real)
    requires scene.FirstHit(k) && scene.dt > 0.0 && multiset(scene.points) <= multiset(points)
    ensures var scene' := scene.(points := points);
      scene'.FirstHit(k') && t' == scene'.Instant(k') && 0.0 <= t' <= scene.Instant(k)
  {
    MorePointsStillHit(scene, points, k);
    var scene' := scene.(points := points);
    k' := Earliest(scene', k);
    t' := scene'.Instant(k');
    InstantsAreOrdered(0, k', scene.dt);
  }

  /** The points that lie in a zone once it has moved by `(dx, dy)`. */
  function MovedBy(zone: Point -> bool, dx: real, dy: real): Point -> bool {
    (p: Point) => zone(Point(p.x - dx, p.y - dy))
  }

  lemma CountUnturned(zone: Point -> bool, trig: Trig, pose: Pose, points: seq<Point>)
    requires pose.theta == 0.0 && trig.cos(0.0) == 1.0 && trig.sin(0.0) == 0.0
    ensures Count(AllSeen(trig, pose, points), zone) == Count(points, MovedBy(zone, pose.x, pose.y))
  {
    CountSeen(zone, trig, pose, points);
    var seen, moved := SeenIn(zone, trig, pose), MovedBy(zone, pose.x, pose.y);
    forall p: Point ensures seen(p) == moved(p) {
      SeenUnturned(zone, trig, pose, p);
    }
    CountOfSame(points, seen, moved);
  }

  lemma SeenUnturned(zone: Point -> bool, trig: Trig, pose: Pose, p: Point)
    requires pose.theta == 0.0 && trig.cos(0.0) == 1.0 && trig.sin(0.0) == 0.0
    ensures SeenIn(zone, trig, pose)(p) == MovedBy(zone, pose.x, pose.y)(p)
  {
    assert SeenFrom(trig, pose, p) == Point(p.x - pose.x, p.y - pose.y);
  }

  lemma HitsAt(scene: Scene, k: nat, pose: Pose)
    requires pose == Simulated(scene.trig, scene.dt, scene.vel, k + 1).pose
    ensures scene.Hits(k) <==> Count(AllSeen(scene.trig, pose, scene.points), ZoneOf(scene.shape)) >= scene.minPoints
  {
  }

  /**
   Driving straight: the zone is hit at the `k`-th instant exactly when enough points lie in it once it has moved by
   `k + 1` steps of the velocity.
   */
  lemma StraightHits(scene: Scene, k: nat) returns (t: real)
    requires scene.trig.cos(0.0) == 1.0 && scene.trig.sin(0.0) == 0.0 && scene.vel.tw == 0.0
    ensures t == (k + 1) as real * scene.dt
    ensures scene.Hits(k) <==>
            Count(scene.points, MovedBy(ZoneOf(scene.shape), scene.vel.x * t, scene.vel.y * t)) >= scene.minPoints
  {
    t := PlaceAhead(scene.trig, scene.dt, scene.vel, k + 1);
    var pose := Pose(scene.vel.x * t, scene.vel.y * t, 0.0);
    HitsAt(scene, k, pose);
    CountUnturned(ZoneOf(scene.shape), scene.trig, pose, scene.points);
  }

  lemma {:induction false} Earliest(scene: Scene, k: nat) returns (first: nat)
    requires scene.Hits(k) && scene.Instant(k) <= scene.horizon && scene.dt > 0.0
    ensures scene.FirstHit(first) && scene.Instant(first) <= scene.Instant(k)
  {
    if j: nat :| j < k && scene.Hits(j) {
      InstantsAreOrdered(j, k, scene.dt);
      first := Earliest(scene, j);
    } else {
      first := k;
    }
  }
}
