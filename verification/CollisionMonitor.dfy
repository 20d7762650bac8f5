/**
 The collision monitor's decision loop (`process`, `processStopSlowdownLimit`, `processApproach`) and its output
 (`publishVelocity`): the slowest velocity any zone asks for, and silence some time after the robot has stopped.
 */
module Monitor {
  import opened Grid
  import opened Plane
  import opened RayCrossing
  import opened CollisionTime
  import opened MostRestrictive
  import opened CommandLog

  datatype Kind = DoNothing | Stop | Slowdown | Approach | Limit

  datatype Action = Action(kind: Kind, vel: Velocity, polygonName: string)

  const ZERO := Velocity(0.0, 0.0, 0.0)
  const INVALID_SOURCE := "invalid source"

  /** A zone with the shape it has after `updatePolygon`. */
  datatype Zone = Zone(name: string, enabled: bool, kind: Kind, shape: Shape, minPoints: int, slowdownRatio: real,
                       linearLimit: real, angularLimit: real, timeBeforeCollision: real, simulationStep: real) {
    /** The simulation of a zone with no positive step would not end. */
    predicate Valid() {
      kind == Approach ==> simulationStep > 0.0
    }

    predicate IsShapeSet() {
      shape.Polygon? ==> shape.vertices != []
    }
  }

  /** What one source delivered for this command. */
  datatype Reading = Reading(enabled: bool, ok: bool, timeout: real, points: seq<Point>)

  /** The library functions; of `hypot` all that is used is that it is the length of a vector. */
  datatype Library = Library(trig: Trig, hypot: (real, real) -> real) {
    ghost predicate Valid() {
      trig.Valid() && forall x, y :: hypot(x, y) >= 0.0 && hypot(x, y) * hypot(x, y) == x * x + y * y
    }
  }

  // ---------------------------------------------------------------- what each zone asks for

  function Clamp(v: real, low: real, high: real): real {
    if v < low then low else if high < v then high else v
  }

  function LimitRatio(linearLimit: real, linear: real): real {
    if linear != 0.0 then Clamp(linearLimit / linear, 0.0, 1.0) else 1.0
  }

  function Limited(lib: Library, z: Zone, cmd: Velocity): Velocity {
    var ratio := LimitRatio(z.linearLimit, lib.hypot(cmd.x, cmd.y));
    Velocity(cmd.x * ratio, cmd.y * ratio, Clamp(cmd.tw, -z.angularLimit, z.angularLimit))
  }

  function SceneOf(lib: Library, z: Zone, points: seq<Point>, cmd: Velocity): Scene {
    Scene(z.shape, lib.trig, z.simulationStep, cmd, points, z.minPoints, z.timeBeforeCollision)
  }

  predicate Triggered(z: Zone, points: seq<Point>) {
    CountIn(z.shape, points) >= z.minPoints
  }

  /**
   What an enabled zone asks for: nothing if it has no shape, has too few points or sees no collision. A collision with
   no time before it makes the ratio undefined, and such a velocity is never slower than another.
   */
  ghost function Asked(lib: Library, z: Zone, points: seq<Point>, cmd: Velocity): Option<Velocity> {
    if !z.enabled || !z.IsShapeSet() then None
    else match z.kind
      case DoNothing => None
      case Stop => if Triggered(z, points) then Some(ZERO) else None
      case Slowdown => if Triggered(z, points) then Some(cmd.Scaled(z.slowdownRatio)) else None
      case Limit => if Triggered(z, points) then Some(Limited(lib, z, cmd)) else None
      case Approach =>
        var scene := SceneOf(lib, z, points, cmd);
        if z.timeBeforeCollision == 0.0 || !(exists k: nat :: scene.FirstHit(k)) then None
        else var k: nat :| scene.FirstHit(k); Some(cmd.Scaled(scene.Instant(k) / z.timeBeforeCollision))
  }

  /** What the zones ask for, in their order. */
  ghost function AllAsked(lib: Library, zones: seq<Zone>, points: seq<Point>, cmd: Velocity): seq<Velocity> {
    if zones == [] then []
    else
      var before, z := AllAsked(lib, zones[..|zones| - 1], points, cmd), zones[|zones| - 1];
      var asked := Asked(lib, z, points, cmd);
      if asked.None? then before else before + [asked.value]
  }

  /** A stop zone that is in force and triggered. */
  predicate SaysStop(z: Zone, points: seq<Point>) {
    z.enabled && z.IsShapeSet() && z.kind == Stop && Triggered(z, points)
  }

  ghost predicate StopAsked(zones: seq<Zone>, points: seq<Point>) {
    exists z :: z in zones && SaysStop(z, points)
  }

  // ---------------------------------------------------------------- the sources

  /** Some source that must be fresh is not. */
  ghost predicate SourceInvalid(readings: seq<Reading>) {
    exists r :: r in readings && r.enabled && !r.ok && r.timeout != 0.0
  }

  ghost function AllPoints(readings: seq<Reading>): seq<Point> {
    if readings == [] then []
    else
      var r := readings[|readings| - 1];
      AllPoints(readings[..|readings| - 1]) + if r.enabled then r.points else []
  }

  /** The points of two lists of sources, one after the other. */
  lemma {:induction false} PointsOfBoth(a: seq<Reading>, b: seq<Reading>)
    ensures AllPoints(a + b) == AllPoints(a) + AllPoints(b)
  {
    if b == [] {
      assert a + b == a;
    } else {
      var n := |b| - 1;
      PointsOfBoth(a, b[..n]);
      assert (a + b)[..|a + b| - 1] == a + b[..n];
    }
  }

  lemma PointsOfOne(r: Reading)
    ensures AllPoints([r]) == if r.enabled then r.points else []
  {
    assert [r][..0] == [];
  }

  /** The points in a shape, source by source. */
  ghost function SumIn(shape: Shape, readings: seq<Reading>): nat {
    if readings == [] then 0
    else (if readings[0].enabled then CountIn(shape, readings[0].points) else 0) + SumIn(shape, readings[1..])
  }

  /** Every point of every enabled source counts. */
  lemma {:induction false} EverySourceCounts(shape: Shape, readings: seq<Reading>)
    ensures CountIn(shape, AllPoints(readings)) == SumIn(shape, readings)
  {
    if readings != [] {
      var r, rest := readings[0], readings[1..];
      EverySourceCounts(shape, rest);
      assert readings == [r] + rest;
      PointsOfBoth([r], rest);
      PointsOfOne(r);
      CountOfBoth(AllPoints([r]), AllPoints(rest), ZoneOf(shape));
    }
  }

  /** The loop over the sources: every point of every enabled one. */
  method CollectPoints(readings: seq<Reading>) returns (points: seq<Point>, invalid: bool)
    ensures invalid == SourceInvalid(readings)
    ensures !invalid ==> points == AllPoints(readings)
    ensures !invalid ==> forall shape :: CountIn(shape, points) == SumIn(shape, readings)
  {
    points, invalid := [], false;
    for k := 0 to |readings|
      invariant points == AllPoints(readings[..k]) && !SourceInvalid(readings[..k])
    {
      var r := readings[k];
      assert readings[..k + 1][..k] == readings[..k];
      if r.enabled {
        points := points + r.points;
        if !r.ok && r.timeout != 0.0 {
          return points, true;
        }
      }
    }
    assert readings[..|readings|] == readings;
    forall shape ensures CountIn(shape, points) == SumIn(shape, readings) {
      EverySourceCounts(shape, readings);
    }
  }

  // ---------------------------------------------------------------- the zones

  /** The effect of one more zone on the chosen velocity. */
  function Slower(asked: Option<Velocity>, vel: Velocity): Velocity {
    if asked.Some? && asked.value.NormSquared() < vel.NormSquared() then asked.value else vel
  }

  /** Only the zero velocity has norm zero. */
  lemma OnlyZeroIsStill(v: Velocity)
    ensures v.NormSquared() >= 0.0 && (v.NormSquared() <= 0.0 ==> v == ZERO)
  {
    var a := SquareOf(v.x);
    var b := SquareOf(v.y);
    var c := SquareOf(v.tw);
    assert v.NormSquared() == a + b + c;
    assert a + b + c <= 0.0 ==> v.x == 0.0 && v.y == 0.0 && v.tw == 0.0;
  }

  lemma StandingIsSlowest(vel: Velocity)
    ensures Slower(Some(ZERO), vel) == ZERO
  {
    OnlyZeroIsStill(vel);
  }

  /** The action bears the kind and the name of the zone, and the velocity that zone asks for. */
  ghost predicate CreditedTo(lib: Library, z: Zone, points: seq<Point>, cmd: Velocity, action: Action) {
    action.kind == z.kind && action.polygonName == z.name && Asked(lib, z, points, cmd) == Some(action.vel)
  }

  /** The command is left alone, or some zone is named that asks for what it is replaced by. */
  ghost predicate Credited(lib: Library, zones: seq<Zone>, points: seq<Point>, cmd: Velocity, action: Action) {
    || action == Action(DoNothing, cmd, "")
    || exists k :: 0 <= k < |zones| && CreditedTo(lib, zones[k], points, cmd, action)
  }

  /** The comparison every zone but a stop zone makes. */
  method TakeSlower(safe: Velocity, kind: Kind, name: string, action: Action) returns (action': Action)
    ensures action'.vel == Slower(Some(safe), action.vel)
    ensures action' == action || action' == Action(kind, safe, name)
  {
    action' := if safe.NormSquared() < action.vel.NormSquared() then Action(kind, safe, name) else action;
  }

  /** The velocity of a limit zone. */
  method LimitVelocity(lib: Library, z: Zone, cmd: Velocity) returns (safe: Velocity)
    ensures safe == Limited(lib, z, cmd)
  {
    var linear := lib.hypot(cmd.x, cmd.y);
    var ratio := 1.0;
    if linear != 0.0 {
      ratio := Clamp(z.linearLimit / linear, 0.0, 1.0);
    }
    safe := Velocity(cmd.x * ratio, cmd.y * ratio, Clamp(cmd.tw, -z.angularLimit, z.angularLimit));
  }

  /** `processStopSlowdownLimit`. */
  method ProcessStopSlowdownLimit(lib: Library, z: Zone, points: seq<Point>, cmd: Velocity, action: Action)
    returns (action': Action)
    requires action.kind != Stop && z.enabled && (z.kind == Stop || z.kind == Slowdown || z.kind == Limit)
    ensures action'.vel == Slower(Asked(lib, z, points, cmd), action.vel)
    ensures action'.kind == Stop <==> SaysStop(z, points)
    ensures action' == action || CreditedTo(lib, z, points, cmd, action')
  {
    action' := action;
    if !z.IsShapeSet() {
      return;
    }
    var num := PointsInside(z.shape, points);
    if num >= z.minPoints {
      if z.kind == Stop {
        StandingIsSlowest(action.vel);
        action' := Action(Stop, ZERO, z.name);
      } else if z.kind == Slowdown {
        action' := TakeSlower(cmd.Scaled(z.slowdownRatio), Slowdown, z.name, action);
      } else {
        var safe := LimitVelocity(lib, z, cmd);
        action' := TakeSlower(safe, Limit, z.name, action);
      }
    }
  }

  /** The velocity an approach zone asks for, once its first hit is known. */
  lemma AskedByApproach(lib: Library, z: Zone, points: seq<Point>, cmd: Velocity, k: nat, t: real)
    requires z.enabled && z.kind == Approach && z.IsShapeSet() && z.timeBeforeCollision != 0.0
    requires var scene := SceneOf(lib, z, points, cmd); scene.FirstHit(k) && t == scene.Instant(k)
    ensures Asked(lib, z, points, cmd) == Some(cmd.Scaled(t / z.timeBeforeCollision))
  {
  }

  /** `processApproach`. */
  method ProcessApproach(lib: Library, z: Zone, points: seq<Point>, cmd: Velocity, action: Action)
    returns (action': Action)
    requires action.kind != Stop && z.enabled && z.kind == Approach && z.Valid()
    ensures action'.vel == Slower(Asked(lib, z, points, cmd), action.vel) && action'.kind != Stop
    ensures action' == action || CreditedTo(lib, z, points, cmd, action')
  {
    action' := action;
    if !z.IsShapeSet() {
      return;
    }
    ghost var scene := SceneOf(lib, z, points, cmd);
    var collisionTime := GetCollisionTime(SceneOf(lib, z, points, cmd));
    if collisionTime >= 0.0 {
      if z.timeBeforeCollision != 0.0 {
        ghost var k: nat :| scene.FirstHit(k) && collisionTime == scene.Instant(k);
        AskedByApproach(lib, z, points, cmd, k, collisionTime);
        action' := TakeSlower(cmd.Scaled(collisionTime / z.timeBeforeCollision), Approach, z.name, action);
      }
    } else {
      forall k: nat ensures !scene.FirstHit(k) {
      }
    }
  }

  /** One pass of the loop over the zones. */
  method ProcessZone(lib: Library, z: Zone, points: seq<Point>, cmd: Velocity, action: Action) returns (action': Action)
    requires action.kind != Stop && z.enabled && z.Valid()
    ensures action'.vel == Slower(Asked(lib, z, points, cmd), action.vel)
    ensures action'.kind == Stop <==> SaysStop(z, points)
    ensures action'.kind == Stop ==> action'.vel == ZERO
    ensures action' == action || CreditedTo(lib, z, points, cmd, action')
  {
    action' := action;
    if z.kind == Stop || z.kind == Slowdown || z.kind == Limit {
      action' := ProcessStopSlowdownLimit(lib, z, points, cmd, action);
    } else if z.kind == Approach {
      action' := ProcessApproach(lib, z, points, cmd, action);
    }
    OnlyZeroIsStill(action'.vel);
  }

  // ---------------------------------------------------------------- the decision

  /** The choice after the first `k` zones. */
  ghost function Chosen(lib: Library, zones: seq<Zone>, k: nat, points: seq<Point>, cmd: Velocity): Velocity
    requires k <= |zones|
  {
    Best(cmd, AllAsked(lib, zones[..k], points, cmd))
  }

  lemma OneMoreZone(lib: Library, zones: seq<Zone>, k: nat, points: seq<Point>, cmd: Velocity)
    requires k < |zones|
    ensures Chosen(lib, zones, k + 1, points, cmd) ==
            Slower(Asked(lib, zones[k], points, cmd), Chosen(lib, zones, k, points, cmd))
    ensures StopAsked(zones[..k + 1], points) <==> StopAsked(zones[..k], points) || SaysStop(zones[k], points)
  {
    assert zones[..k + 1][..k] == zones[..k];
    var before, asked := AllAsked(lib, zones[..k], points, cmd), Asked(lib, zones[k], points, cmd);
    if asked.Some? {
      assert (before + [asked.value])[..|before|] == before;
    }
    assert zones[..k + 1] == zones[..k] + [zones[k]];
  }

  /** Once the robot is to stand still nothing slower can be asked for. */
  lemma {:induction false} ZeroStands(lib: Library, zones: seq<Zone>, k: nat, n: nat, points: seq<Point>, cmd: Velocity)
    requires k <= n <= |zones| && Chosen(lib, zones, k, points, cmd) == ZERO
    ensures Chosen(lib, zones, n, points, cmd) == ZERO
    ensures StopAsked(zones[..k], points) ==> StopAsked(zones[..n], points)
  {
    if k < n {
      ZeroStands(lib, zones, k, n - 1, points, cmd);
      OneMoreZone(lib, zones, n - 1, points, cmd);
      NothingIsSlower(Asked(lib, zones[n - 1], points, cmd));
    }
  }

  lemma NothingIsSlower(asked: Option<Velocity>)
    ensures Slower(asked, ZERO) == ZERO
  {
  }

  /** The loop over the zones, left as soon as one says stop. */
  method DecideByZones(lib: Library, zones: seq<Zone>, points: seq<Point>, cmd: Velocity) returns (action: Action)
    requires forall z :: z in zones ==> z.Valid()
    ensures action.vel == Best(cmd, AllAsked(lib, zones, points, cmd))
    ensures action.kind == Stop <==> StopAsked(zones, points)
    ensures action.kind == Stop ==> action.vel == ZERO
    ensures Credited(lib, zones, points, cmd, action)
  {
    action := Action(DoNothing, cmd, "");
    assert zones[..|zones|] == zones;
    var k := 0;
    while k < |zones|
      invariant 0 <= k <= |zones| && action.kind != Stop && Credited(lib, zones, points, cmd, action)
      invariant action.vel == Chosen(lib, zones, k, points, cmd) && !StopAsked(zones[..k], points)
    {
      OneMoreZone(lib, zones, k, points, cmd);
      if zones[k].enabled {
        action := ProcessZone(lib, zones[k], points, cmd, action);
        if action.kind == Stop {
          ZeroStands(lib, zones, k + 1, |zones|, points, cmd);
          return;
        }
      }
      k := k + 1;
    }
  }

  /** What is required of the robot: to stand still on stale data, and else the slowest velocity asked for. */
  ghost function Required(lib: Library, readings: seq<Reading>, zones: seq<Zone>, cmd: Velocity): Velocity {
    if SourceInvalid(readings) then ZERO else Best(cmd, AllAsked(lib, zones, AllPoints(readings), cmd))
  }

  /** Some stop zone in force holds as many points of the enabled sources as it takes. */
  ghost predicate StopZoneHit(zones: seq<Zone>, readings: seq<Reading>) {
    exists k :: 0 <= k < |zones| && zones[k].enabled && zones[k].IsShapeSet() && zones[k].kind == Stop
                && SumIn(zones[k].shape, readings) >= zones[k].minPoints
  }

  lemma StopAskedExactly(zones: seq<Zone>, readings: seq<Reading>)
    ensures StopAsked(zones, AllPoints(readings)) <==> StopZoneHit(zones, readings)
  {
    forall k | 0 <= k < |zones|
      ensures CountIn(zones[k].shape, AllPoints(readings)) == SumIn(zones[k].shape, readings)
    {
      EverySourceCounts(zones[k].shape, readings);
    }
    if StopAsked(zones, AllPoints(readings)) {
      var z :| z in zones && SaysStop(z, AllPoints(readings));
      var k :| 0 <= k < |zones| && zones[k] == z;
    }
    if StopZoneHit(zones, readings) {
      var k :| 0 <= k < |zones| && zones[k].enabled && zones[k].IsShapeSet() && zones[k].kind == Stop
               && SumIn(zones[k].shape, readings) >= zones[k].minPoints;
      assert zones[k] in zones && SaysStop(zones[k], AllPoints(readings));
    }
  }

  /** What `process` requires of the robot. */
  method Decide(lib: Library, readings: seq<Reading>, zones: seq<Zone>, cmd: Velocity) returns (action: Action)
    requires forall z :: z in zones ==> z.Valid()
    ensures SourceInvalid(readings) ==> action == Action(Stop, ZERO, INVALID_SOURCE)
    ensures action.vel == Required(lib, readings, zones, cmd)
    ensures action.kind == Stop <==> SourceInvalid(readings) || StopAsked(zones, AllPoints(readings))
    ensures action.kind == Stop ==> action.vel == ZERO
    ensures StopZoneHit(zones, readings) ==> action.kind == Stop
    ensures !SourceInvalid(readings) ==> Credited(lib, zones, AllPoints(readings), cmd, action)
  {
    StopAskedExactly(zones, readings);
    var points, invalid := CollectPoints(readings);
    if invalid {
      action := Action(Stop, ZERO, INVALID_SOURCE);
    } else {
      action := DecideByZones(lib, zones, points, cmd);
    }
  }

  // ---------------------------------------------------------------- what the decision guarantees

  /** A limit zone caps both speeds, keeps the direction and never speeds anything up. */
  lemma LimitIsKept(lib: Library, z: Zone, cmd: Velocity) returns (ratio: real)
    requires lib.Valid() && z.linearLimit >= 0.0 && z.angularLimit >= 0.0
    ensures var v := Limited(lib, z, cmd);
      && 0.0 <= ratio <= 1.0 && v.x == cmd.x * ratio && v.y == cmd.y * ratio
      && v.x * v.x + v.y * v.y <= z.linearLimit * z.linearLimit
      && -z.angularLimit <= v.tw <= z.angularLimit
      && v.NormSquared() <= cmd.NormSquared()
  {
    var linear := lib.hypot(cmd.x, cmd.y);
    ratio := LimitRatio(z.linearLimit, linear);
    var r := RatioOfLimit(z.linearLimit, linear);
    ScaledLength(cmd.x, cmd.y, ratio, linear);
    var v := Limited(lib, z, cmd);
    var reached := ratio * linear;
    Squares(reached, z.linearLimit);
    Squares(reached, linear);
    var turn := SquareOf(cmd.tw);
    var turn' := SquareOf(v.tw);
    ClampSquares(cmd.tw, z.angularLimit);
  }

  /** The ratio brings the speed down to the limit, or leaves it if it is below. */
  lemma RatioOfLimit(limit: real, linear: real) returns (ratio: real)
    requires limit >= 0.0 && linear >= 0.0
    ensures ratio == LimitRatio(limit, linear) && 0.0 <= ratio <= 1.0
    ensures 0.0 <= ratio * linear <= limit && ratio * linear <= linear
    ensures (linear <= limit ==> ratio == 1.0) && (linear > limit ==> ratio * linear == limit)
  {
    ratio := LimitRatio(limit, linear);
    if linear > 0.0 {
      var q := limit / linear;
      assert q * linear == limit;
      assert q < 1.0 ==> (1.0 - q) * linear > 0.0;
      if q > 1.0 {
        assert (q - 1.0) * linear > 0.0;
      } else {
        assert q >= 0.0;
        assert (1.0 - q) * linear >= 0.0;
      }
    }
  }

  /** A limit zone leaves a speed within its limit alone, and brings any other down to exactly the limit. */
  lemma LimitIsReached(lib: Library, z: Zone, cmd: Velocity)
    requires lib.Valid() && z.linearLimit >= 0.0 && z.angularLimit >= 0.0
    ensures var v, s := Limited(lib, z, cmd), cmd.x * cmd.x + cmd.y * cmd.y;
      && (s <= z.linearLimit * z.linearLimit ==> v.x == cmd.x && v.y == cmd.y)
      && (s > z.linearLimit * z.linearLimit ==> v.x * v.x + v.y * v.y == z.linearLimit * z.linearLimit)
    ensures var v := Limited(lib, z, cmd);
      && (-z.angularLimit <= cmd.tw <= z.angularLimit ==> v.tw == cmd.tw)
      && (cmd.tw > z.angularLimit ==> v.tw == z.angularLimit) && (cmd.tw < -z.angularLimit ==> v.tw == -z.angularLimit)
  {
    var linear := lib.hypot(cmd.x, cmd.y);
    var ratio := RatioOfLimit(z.linearLimit, linear);
    ScaledLength(cmd.x, cmd.y, ratio, linear);
    RootsCompare(linear, z.linearLimit);
  }

  lemma ScaledLength(x: real, y: real, ratio: real, linear: real)
    requires linear * linear == x * x + y * y
    ensures (x * ratio) * (x * ratio) + (y * ratio) * (y * ratio) == (ratio * linear) * (ratio * linear)
  {
    assert (x * ratio) * (x * ratio) == (ratio * ratio) * (x * x);
    assert (y * ratio) * (y * ratio) == (ratio * ratio) * (y * y);
    assert (ratio * linear) * (ratio * linear) == (ratio * ratio) * (linear * linear);
  }

  lemma ClampSquares(v: real, limit: real)
    requires limit >= 0.0
    ensures Clamp(v, -limit, limit) * Clamp(v, -limit, limit) <= v * v
  {
    if v < -limit {
      Squares(limit, -v);
    } else if limit < v {
      Squares(limit, v);
    }
  }

  /** What a stop, slowdown or limit zone in force asks for, and when. */
  lemma ZoneAsks(lib: Library, z: Zone, points: seq<Point>, cmd: Velocity)
    ensures !z.enabled || (z.shape.Polygon? && |z.shape.vertices| == 0) || z.kind == DoNothing ==>
      Asked(lib, z, points, cmd) == None
    ensures z.enabled && (z.shape.Circle? || |z.shape.vertices| > 0) && z.kind != DoNothing && z.kind != Approach ==>
      (Asked(lib, z, points, cmd).Some? <==> CountIn(z.shape, points) >= z.minPoints)
    ensures z.kind == Stop && Asked(lib, z, points, cmd).Some? ==>
      Asked(lib, z, points, cmd).value == Velocity(0.0, 0.0, 0.0)
    ensures z.kind == Slowdown && Asked(lib, z, points, cmd).Some? ==>
      var r := z.slowdownRatio; Asked(lib, z, points, cmd).value == Velocity(cmd.x * r, cmd.y * r, cmd.tw * r)
    ensures z.kind == Limit && Asked(lib, z, points, cmd).Some? ==>
      Asked(lib, z, points, cmd).value == Limited(lib, z, cmd)
  {
  }

  /** What an approach zone in force asks for: the command, scaled by the part of its time that is left. */
  lemma ApproachAsks(lib: Library, z: Zone, points: seq<Point>, cmd: Velocity, k: nat) returns (r: real)
    requires z.enabled && z.kind == Approach && (z.shape.Polygon? ==> |z.shape.vertices| > 0)
    requires z.timeBeforeCollision > 0.0
    requires Scene(z.shape, lib.trig, z.simulationStep, cmd, points, z.minPoints, z.timeBeforeCollision).FirstHit(k)
    ensures r * z.timeBeforeCollision == k as real * z.simulationStep
    ensures Asked(lib, z, points, cmd) == Some(cmd.Scaled(r))
  {
    var t := SceneOf(lib, z, points, cmd).Instant(k);
    AskedByApproach(lib, z, points, cmd, k, t);
    r := PartOf(t, z.timeBeforeCollision);
    TimeIsMultiple(z.simulationStep, k);
  }

  lemma PartOf(t: real, whole: real) returns (r: real)
    requires whole > 0.0
    ensures r == t / whole && r * whole == t
  {
    r := t / whole;
  }

  /** The velocity is the command or what some zone asks for, and no zone asks for a slower one. */
  ghost predicate SafestOf(lib: Library, zones: seq<Zone>, points: seq<Point>, cmd: Velocity, v: Velocity) {
    && (v == cmd || exists z :: z in zones && Asked(lib, z, points, cmd) == Some(v))
    && v.NormSquared() <= cmd.NormSquared()
    && forall z :: z in zones && Asked(lib, z, points, cmd).Some? ==>
         v.NormSquared() <= Asked(lib, z, points, cmd).value.NormSquared()
  }

  lemma BestIsSafest(lib: Library, zones: seq<Zone>, points: seq<Point>, cmd: Velocity, v: Velocity)
    requires v == Best(cmd, AllAsked(lib, zones, points, cmd))
    ensures SafestOf(lib, zones, points, cmd, v)
  {
    BestIsSlowest(cmd, AllAsked(lib, zones, points, cmd));
    if v in AllAsked(lib, zones, points, cmd) {
      var z := ListedIsAsked(lib, zones, points, cmd, v);
    }
    forall z | z in zones && Asked(lib, z, points, cmd).Some?
      ensures v.NormSquared() <= Asked(lib, z, points, cmd).value.NormSquared()
    {
      AskedIsListed(lib, zones, points, cmd, z);
    }
  }

  /** Some enabled source delivered no valid data although it has a timeout. */
  ghost predicate Stale(readings: seq<Reading>) {
    exists k :: 0 <= k < |readings| && readings[k].enabled && !readings[k].ok && readings[k].timeout != 0.0
  }

  lemma InvalidIsStale(readings: seq<Reading>)
    ensures SourceInvalid(readings) <==> Stale(readings)
  {
    if SourceInvalid(readings) {
      var r :| r in readings && r.enabled && !r.ok && r.timeout != 0.0;
      var k :| 0 <= k < |readings| && readings[k] == r;
    }
    if Stale(readings) {
      var k :| 0 <= k < |readings| && readings[k].enabled && !readings[k].ok && readings[k].timeout != 0.0;
      assert readings[k] in readings;
    }
  }

  /** The decision in full: to stand still on a stale source, and else the safest velocity. */
  lemma RequiredExactly(lib: Library, readings: seq<Reading>, zones: seq<Zone>, cmd: Velocity)
    ensures Stale(readings) ==> Required(lib, readings, zones, cmd) == Velocity(0.0, 0.0, 0.0)
    ensures !Stale(readings) ==>
      SafestOf(lib, zones, AllPoints(readings), cmd, Required(lib, readings, zones, cmd))
  {
    InvalidIsStale(readings);
    if !Stale(readings) {
      BestIsSafest(lib, zones, AllPoints(readings), cmd, Required(lib, readings, zones, cmd));
    }
  }

  /** An approach zone asks for the command scaled by a ratio between zero and one, whatever the points. */
  lemma ApproachScalesDown(lib: Library, z: Zone, points: seq<Point>, cmd: Velocity) returns (ratio: real)
    requires z.Valid() && z.kind == Approach && Asked(lib, z, points, cmd).Some?
    ensures 0.0 <= ratio <= 1.0 && Asked(lib, z, points, cmd) == Some(cmd.Scaled(ratio))
  {
    var scene := SceneOf(lib, z, points, cmd);
    var k: nat :| scene.FirstHit(k);
    var t := scene.Instant(k);
    AskedByApproach(lib, z, points, cmd, k, t);
    InstantsAreOrdered(0, k, z.simulationStep);
    ratio := Ratio(t, z.timeBeforeCollision);
  }

  lemma {:induction false} AskedIsListed(lib: Library, zones: seq<Zone>, points: seq<Point>, cmd: Velocity, z: Zone)
    requires z in zones && Asked(lib, z, points, cmd).Some?
    ensures Asked(lib, z, points, cmd).value in AllAsked(lib, zones, points, cmd)
  {
    var n := |zones| - 1;
    if z != zones[n] {
      assert z in zones[..n];
      AskedIsListed(lib, zones[..n], points, cmd, z);
    }
  }

  lemma {:induction false} ListedIsAsked(lib: Library, zones: seq<Zone>, points: seq<Point>, cmd: Velocity,
                                         c: Velocity) returns (z: Zone)
    requires c in AllAsked(lib, zones, points, cmd)
    ensures z in zones && Asked(lib, z, points, cmd) == Some(c)
  {
    var n := |zones| - 1;
    if Asked(lib, zones[n], points, cmd) == Some(c) {
      z := zones[n];
    } else {
      z := ListedIsAsked(lib, zones[..n], points, cmd, c);
    }
  }

  /** Every zone of the second list with the second points asks for something at least as slow. */
  ghost predicate AtLeastAsSlow(lib: Library, zones: seq<Zone>, points: seq<Point>, zones': seq<Zone>,
                                points': seq<Point>, cmd: Velocity) {
    forall z :: z in zones && Asked(lib, z, points, cmd).Some? ==>
      && z in zones' && Asked(lib, z, points', cmd).Some?
      && Asked(lib, z, points', cmd).value.NormSquared() <= Asked(lib, z, points, cmd).value.NormSquared()
  }

  lemma SlowerZonesSlowerChoice(lib: Library, zones: seq<Zone>, points: seq<Point>, zones': seq<Zone>,
                                points': seq<Point>, cmd: Velocity)
    requires AtLeastAsSlow(lib, zones, points, zones', points', cmd)
    ensures Best(cmd, AllAsked(lib, zones', points', cmd)).NormSquared() <=
            Best(cmd, AllAsked(lib, zones, points, cmd)).NormSquared()
  {
    var asked, asked' := AllAsked(lib, zones, points, cmd), AllAsked(lib, zones', points', cmd);
    forall c | c in asked ensures exists d :: d in asked' && d.NormSquared() <= c.NormSquared() {
      var z := ListedIsAsked(lib, zones, points, cmd, c);
      AskedIsListed(lib, zones', points', cmd, z);
    }
    BestIsMonotone(cmd, asked, asked');
  }

  /** In whatever order the zones are configured, the robot is as slow. */
  lemma ZoneOrderIsIrrelevant(lib: Library, zones: seq<Zone>, zones': seq<Zone>, points: seq<Point>, cmd: Velocity)
    requires multiset(zones) == multiset(zones')
    ensures Best(cmd, AllAsked(lib, zones, points, cmd)).NormSquared() ==
            Best(cmd, AllAsked(lib, zones', points, cmd)).NormSquared()
  {
    forall z ensures z in zones <==> z in zones' {
      assert z in multiset(zones) <==> z in multiset(zones');
    }
    SlowerZonesSlowerChoice(lib, zones, points, zones', points, cmd);
    SlowerZonesSlowerChoice(lib, zones', points, zones, points, cmd);
  }

  lemma ScaledNorm(v: Velocity, r: real, r': real)
    requires 0.0 <= r' <= r
    ensures v.Scaled(r').NormSquared() <= v.Scaled(r).NormSquared()
  {
    Squares(r', r);
    OnlyZeroIsStill(v);
    var n := ScaledSquares(v, r, r * r);
    var n' := ScaledSquares(v, r', r' * r');
    Product(r' * r', r * r, v.NormSquared(), n', n);
  }

  lemma Product(a: real, b: real, c: real, ac: real, bc: real)
    requires a <= b && c >= 0.0 && ac == a * c && bc == b * c
    ensures ac <= bc
  {
    assert (b - a) * c == bc - ac;
  }

  lemma ScaledSquares(v: Velocity, r: real, rr: real) returns (n: real)
    requires rr == r * r
    ensures n == v.Scaled(r).NormSquared() == rr * v.NormSquared()
  {
    n := v.Scaled(r).NormSquared();
    ScaledSquare(v.x, r, rr);
    ScaledSquare(v.y, r, rr);
    ScaledSquare(v.tw, r, rr);
  }

  lemma ScaledSquare(x: real, r: real, rr: real)
    requires rr == r * r
    ensures (x * r) * (x * r) == rr * (x * x)
  {
  }

  /** A zone never asks for more when there are more obstacle points. */
  lemma MorePointsAskForLess(lib: Library, z: Zone, points: seq<Point>, points': seq<Point>, cmd: Velocity)
    requires z.Valid() && Asked(lib, z, points, cmd).Some? && multiset(points) <= multiset(points')
    ensures Asked(lib, z, points', cmd).Some?
    ensures Asked(lib, z, points', cmd).value.NormSquared() <= Asked(lib, z, points, cmd).value.NormSquared()
  {
    CountOfMore(points, points', ZoneOf(z.shape));
    if z.kind == Approach {
      ApproachAsksForLess(lib, z, points, points', cmd);
    }
  }

  lemma ApproachAsksForLess(lib: Library, z: Zone, points: seq<Point>, points': seq<Point>, cmd: Velocity)
    requires z.Valid() && z.kind == Approach && Asked(lib, z, points, cmd).Some?
    requires multiset(points) <= multiset(points')
    ensures Asked(lib, z, points', cmd).Some?
    ensures Asked(lib, z, points', cmd).value.NormSquared() <= Asked(lib, z, points, cmd).value.NormSquared()
  {
    var t, t' := HitTimes(lib, z, points, points', cmd);
    var q', q := Quotients(t', t, z.timeBeforeCollision);
    ScaledNorm(cmd, q, q');
  }

  /** The collision times with the points and with more of them. */
  lemma HitTimes(lib: Library, z: Zone, points: seq<Point>, points': seq<Point>, cmd: Velocity)
    returns (t: real, t': real)
    requires z.Valid() && z.kind == Approach && Asked(lib, z, points, cmd).Some?
    requires multiset(points) <= multiset(points')
    ensures 0.0 <= t' <= t && z.timeBeforeCollision > 0.0
    ensures Asked(lib, z, points, cmd) == Some(cmd.Scaled(t / z.timeBeforeCollision))
    ensures Asked(lib, z, points', cmd) == Some(cmd.Scaled(t' / z.timeBeforeCollision))
  {
    var scene := SceneOf(lib, z, points, cmd);
    var k: nat :| scene.FirstHit(k);
    var k';
    k', t' := MorePointsHitNoLater(scene, points', k);
    t := scene.Instant(k);
    assert scene.(points := points') == SceneOf(lib, z, points', cmd);
    AskedByApproach(lib, z, points, cmd, k, t);
    AskedByApproach(lib, z, points', cmd, k', t');
  }

  lemma Quotients(a: real, b: real, c: real) returns (q: real, r: real)
    requires 0.0 <= a <= b && c > 0.0
    ensures q == a / c && r == b / c && 0.0 <= q <= r
  {
    q, r := a / c, b / c;
    assert q * c == a && r * c == b;
    assert q < 0.0 ==> q * c < 0.0;
    var d := r - q;
    assert d * c == b - a;
    assert d < 0.0 ==> d * c < 0.0;
  }

  /** Seeing more obstacles never lets the robot go faster. */
  lemma MoreObstaclesNeverFaster(lib: Library, zones: seq<Zone>, points: seq<Point>, points': seq<Point>, cmd: Velocity)
    requires multiset(points) <= multiset(points') && forall z :: z in zones ==> z.Valid()
    ensures Best(cmd, AllAsked(lib, zones, points', cmd)).NormSquared() <=
            Best(cmd, AllAsked(lib, zones, points, cmd)).NormSquared()
  {
    forall z | z in zones && Asked(lib, z, points, cmd).Some?
      ensures Asked(lib, z, points', cmd).Some?
      ensures Asked(lib, z, points', cmd).value.NormSquared() <= Asked(lib, z, points, cmd).value.NormSquared()
    {
      MorePointsAskForLess(lib, z, points, points', cmd);
    }
    SlowerZonesSlowerChoice(lib, zones, points, zones, points', cmd);
  }

  /** A list without one of its sources, and what that does to the points. */
  lemma WithoutSource(more: seq<Reading>, r: Reading) returns (rest: seq<Reading>)
    requires r in more
    ensures multiset(rest) == multiset(more) - multiset{r}
    ensures multiset(AllPoints(more)) == multiset(AllPoints(rest)) + multiset(AllPoints([r]))
  {
    var j :| 0 <= j < |more| && more[j] == r;
    var front, back := more[..j], more[j + 1..];
    rest := front + back;
    assert more == front + ([r] + back);
    PointsOfBoth(front, [r] + back);
    PointsOfBoth([r], back);
    PointsOfBoth(front, back);
  }

  /** More sources, wherever they stand in the list, give more points. */
  lemma {:induction false} PointsOfMoreSources(readings: seq<Reading>, more: seq<Reading>)
    requires multiset(readings) <= multiset(more)
    ensures multiset(AllPoints(readings)) <= multiset(AllPoints(more))
  {
    if readings != [] {
      var n := |readings| - 1;
      var r := readings[n];
      assert readings == readings[..n] + [r];
      assert r in multiset(more);
      var rest := WithoutSource(more, r);
      PointsOfMoreSources(readings[..n], rest);
      PointsOfBoth(readings[..n], [r]);
    }
  }

  lemma MoreSourcesMoreStale(readings: seq<Reading>, more: seq<Reading>)
    requires multiset(readings) <= multiset(more)
    ensures SourceInvalid(readings) ==> SourceInvalid(more)
  {
    if SourceInvalid(readings) {
      var r :| r in readings && r.enabled && !r.ok && r.timeout != 0.0;
      assert r in multiset(readings);
      assert r in more;
    }
  }

  /** More sources never make the decision faster. */
  lemma MoreSourcesNeverFaster(lib: Library, readings: seq<Reading>, more: seq<Reading>, zones: seq<Zone>,
                               cmd: Velocity)
    requires multiset(readings) <= multiset(more) && forall z :: z in zones ==> z.Valid()
    ensures Required(lib, more, zones, cmd).NormSquared() <= Required(lib, readings, zones, cmd).NormSquared()
  {
    MoreSourcesMoreStale(readings, more);
    if SourceInvalid(more) {
      OnlyZeroIsStill(Required(lib, readings, zones, cmd));
    } else {
      PointsOfMoreSources(readings, more);
      MoreObstaclesNeverFaster(lib, zones, AllPoints(readings), AllPoints(more), cmd);
    }
  }

  // ---------------------------------------------------------------- the node

  /** What the node remembers when nothing has been processed since it was activated. */
  const NOTHING_YET := Action(DoNothing, Velocity(-1.0, -1.0, -1.0), "")

  class CollisionMonitor {
    var processActive: bool
    var robotActionPrev: Action
    var stopStamp: int
    const stopPubTimeout: int
    const lib: Library

    /** The commands processed since the node was last activated. */
    ghost var log: seq<Entry>

    ghost predicate Valid()
      reads this
    {
      && Correct(log, stopPubTimeout) && Remembers(log, robotActionPrev.vel, stopStamp)
      && (log == [] ==> robotActionPrev == NOTHING_YET)
    }

    constructor (stopPubTimeout: int, lib: Library)
      ensures Valid() && log == [] && !processActive && this.stopPubTimeout == stopPubTimeout && this.lib == lib
    {
      this.stopPubTimeout, this.lib := stopPubTimeout, lib;
      processActive, robotActionPrev, stopStamp, log := false, NOTHING_YET, 0, [];
    }

    /** `on_activate`. */
    method OnActivate()
      requires Valid()
      modifies this`processActive
      ensures Valid() && processActive
    {
      processActive := true;
    }

    /** `on_deactivate`. */
    method OnDeactivate()
      requires Valid()
      modifies this`processActive, this`robotActionPrev, this`log
      ensures Valid() && !processActive && log == []
    {
      processActive, robotActionPrev, log := false, NOTHING_YET, [];
    }

    /** `publishVelocity`. */
    method PublishVelocity(action: Action, now: int) returns (sent: Option<Velocity>)
      requires Valid()
      modifies this`stopStamp
      ensures sent == None || sent == Some(action.vel)
      ensures Correct(log + [Entry(action.vel, now, sent.Some?)], stopPubTimeout)
      ensures Remembers(log + [Entry(action.vel, now, sent.Some?)], action.vel, stopStamp)
    {
      ghost var stamp := stopStamp;
      sent := Some(action.vel);
      if action.vel.IsZero() {
        if !robotActionPrev.vel.IsZero() {
          stopStamp := now;
        } else if now - stopStamp > stopPubTimeout {
          sent := None;
        }
      }
      NextEntry(log, robotActionPrev.vel, stamp, Entry(action.vel, now, sent.Some?));
    }

    /**
     `process`: nothing while inactive; otherwise the required velocity is decided, published if due, and remembered.
     The robot's last instruction is then the required velocity.
     */
    method Process(cmd: Velocity, now: int, readings: seq<Reading>, zones: seq<Zone>) returns (sent: Option<Velocity>)
      requires Valid() && forall z :: z in zones ==> z.Valid()
      modifies this
      ensures Valid() && processActive == old(processActive)
      ensures !processActive ==> sent == None && log == old(log) && robotActionPrev == old(robotActionPrev)
      ensures processActive ==>
        var points, required := AllPoints(readings), Required(lib, readings, zones, cmd);
        && robotActionPrev.vel == required && log == old(log) + [Entry(required, now, sent.Some?)]
        && (robotActionPrev.kind == Stop <==> SourceInvalid(readings) || StopAsked(zones, points))
        && (sent == None || sent == Some(required)) && LastSent(log, required)
    {
      sent := None;
      if !processActive {
        return;
      }
      var action := Decide(lib, readings, zones, cmd);
      sent := PublishVelocity(action, now);
      robotActionPrev := action;
      log := log + [Entry(action.vel, now, sent.Some?)];
      RobotKnows(log, stopPubTimeout);
    }
  }
}
