/**
 The inflation layer (`InflationLayer`): caches that outlive parameter changes, and the
 wavefront that spreads obstacle costs over the master grid.
 */
module InflationPlugin {
  import opened Grid
  import opened DistanceLevels
  import opened Wavefront
  import opened Inflation
  import opened Costmap

  /** A square table of side `n`, row by row, holding `value(i, j)` at row `i`, column `j`. */
  ghost function TableOf<T>(n: nat, value: (nat, nat) -> T): (table: seq<T>)
    ensures |table| == n * n
  {
    if n == 0 then [] else seq(n * n, (k: nat) => value(k / n, k % n))
  }

  lemma TableEntry<T>(n: nat, value: (nat, nat) -> T, i: nat, j: nat)
    requires i < n && j < n
    ensures Index(j, i, n) < n * n && TableOf(n, value)[Index(j, i, n)] == value(i, j)
  {
    IndexBound(j, i, n, n);
    IndexToCells(j, i, n);
  }

  lemma TableIsUnique<T(!new)>(table: seq<T>, n: nat, value: (nat, nat) -> T)
    requires FilledUpTo(table, n, value, n, 0)
    ensures table == TableOf(n, value)
  {
    forall k | 0 <= k < n * n ensures table[k] == TableOf(n, value)[k] {
      var j, i := CellAtIndex(k, n, n);
      TableEntry(n, value, i, j);
    }
  }

  /** The squared distance the cache stores in place of `hypot(i, j)`. */
  function SquaredHypot(i: nat, j: nat): int {
    Offset(i, j).Norm()
  }

  /** The entries written when the fill has reached row `i`, column `j`. */
  ghost predicate FilledUpTo<T(!new)>(table: seq<T>, n: nat, value: (nat, nat) -> T, i: nat, j: nat) {
    && |table| == n * n
    && forall a: nat, b: nat :: a < n && b < n && (a < i || (a == i && b < j)) ==>
         Index(b, a, n) < n * n && table[Index(b, a, n)] == value(a, b)
  }

  lemma FillOne<T(!new)>(table: seq<T>, n: nat, value: (nat, nat) -> T, i: nat, j: nat)
    requires i < n && j < n && FilledUpTo(table, n, value, i, j)
    ensures Index(j, i, n) < n * n
    ensures FilledUpTo(table[Index(j, i, n) := value(i, j)], n, value, i, j + 1)
  {
    IndexBound(j, i, n, n);
    forall a: nat, b: nat | a < n && b < n && (a < i || (a == i && b < j))
      ensures Index(b, a, n) != Index(j, i, n)
    {
      IndexInjective(b, a, j, i, n);
    }
  }

  /** The nested cache-filling loops, over a table already resized to `n * n`. */
  method FillTable<T(!new)>(resized: seq<T>, n: nat, value: (nat, nat) -> T) returns (table: seq<T>)
    requires |resized| == n * n
    ensures table == TableOf(n, value)
  {
    table := resized;
    for i := 0 to n
      invariant FilledUpTo(table, n, value, i, 0)
    {
      for j := 0 to n
        invariant FilledUpTo(table, n, value, i, j)
      {
        FillOne(table, n, value, i, j);
        table := table[Index(j, i, n) := value(i, j)];
      }
    }
    TableIsUnique(table, n, value);
  }

  /** The parameters the cached costs depend on. */
  datatype CostParams = CostParams(
    inscribedRadius: real,
    scaling: real,
    resolution: real,
    decay: (real, real, real, int) -> Cost
  ) {
    /**
     `computeCost`, on a squared distance. `decay` stands for the exponential fall-off beyond the
     inscribed radius, truncated to an unsigned char.
     */
    function ComputeCost(d: int): Cost {
      if d == 0 then LETHAL_OBSTACLE
      else if Inscribed(d) then INSCRIBED_INFLATED_OBSTACLE
      else decay(scaling, resolution, inscribedRadius, d)
    }

    /** A squared distance in cells lies within the inscribed radius. */
    predicate Inscribed(d: int) {
      d as real * (resolution * resolution) <= inscribedRadius * inscribedRadius
    }
  }

  /** What the exponential fall-off is used for: it never rises with distance and stays below the inscribed cost. */
  ghost predicate Falls(p: CostParams) {
    forall m, n :: 0 <= m <= n ==>
      p.decay(p.scaling, p.resolution, p.inscribedRadius, n)
        <= p.decay(p.scaling, p.resolution, p.inscribedRadius, m) < INSCRIBED_INFLATED_OBSTACLE
  }

  lemma InscribedIsDownwardClosed(p: CostParams, m: int, n: int)
    requires 0 <= m <= n && p.Inscribed(n)
    ensures p.Inscribed(m)
  {
    SmallerProduct(m as real, n as real, p.resolution * p.resolution);
  }

  lemma SmallerProduct(a: real, b: real, q: real)
    requires a <= b && q >= 0.0
    ensures a * q <= b * q
  {
    assert (b - a) * q >= 0.0;
  }

  lemma CostFalls(p: CostParams, m: int, n: int)
    requires Falls(p) && 0 <= m <= n
    ensures p.ComputeCost(n) <= p.ComputeCost(m) < NO_INFORMATION
  {
    if p.Inscribed(n) {
      InscribedIsDownwardClosed(p, m, n);
    }
  }

  /** Costs never rise with distance, and never read as unknown. */
  lemma CostIsAntitone(p: CostParams)
    requires Falls(p)
    ensures Antitone(p.ComputeCost)
  {
    forall m, n | 0 <= m <= n ensures p.ComputeCost(n) <= p.ComputeCost(m) < NO_INFORMATION {
      CostFalls(p, m, n);
    }
  }

  /** A lethal cost marks the obstacle itself, and the inscribed cost exactly the cells within the inscribed radius. */
  lemma CostMarks(p: CostParams, d: int)
    requires Falls(p) && d >= 0
    ensures p.ComputeCost(d) == LETHAL_OBSTACLE <==> d == 0
    ensures p.ComputeCost(d) >= INSCRIBED_INFLATED_OBSTACLE <==> p.Inscribed(d)
  {
    if d == 0 {
      assert 0.0 * (p.resolution * p.resolution) == 0.0;
      assert p.inscribedRadius * p.inscribedRadius >= 0.0;
    }
  }

  /** `Costmap2D::cellDistance`: a world distance in cells, rounded up and never negative. */
  function CellDistance(worldDist: real, resolution: real): nat
    requires resolution > 0.0
  {
    Max(0, -(-(worldDist / resolution)).Floor)
  }

  /** It is the least number of cells that covers the distance. */
  lemma CellDistanceCovers(worldDist: real, resolution: real)
    requires resolution > 0.0
    ensures var n := CellDistance(worldDist, resolution);
      worldDist <= n as real * resolution && (n > 0 ==> (n - 1) as real * resolution < worldDist)
  {
    var q := worldDist / resolution;
    var n: int := CellDistance(worldDist, resolution);
    assert q <= n as real && (n > 0 ==> (n - 1) as real < q);
    var a, b := Scaled(q, n as real, resolution);
    var c, d := Scaled((n - 1) as real, q, resolution);
    assert q * resolution == worldDist;
  }

  lemma Scaled(a: real, b: real, c: real) returns (ac: real, bc: real)
    requires c > 0.0
    ensures ac == a * c && bc == b * c && (a <= b ==> ac <= bc) && (a < b ==> ac < bc)
  {
    ac, bc := a * c, b * c;
    var d := b - a;
    assert d * c == bc - ac;
    assert d > 0.0 ==> d * c > 0.0;
  }

  /** `std::vector::resize`. */
  function Resize<T>(s: seq<T>, n: nat, fill: T): (r: seq<T>)
    ensures |r| == n
  {
    if n <= |s| then s[..n] else s + seq(n - |s|, _ => fill)
  }

  function CostAt(p: CostParams, distances: seq<int>, n: nat): (nat, nat) -> Cost {
    (i: nat, j: nat) => if Index(j, i, n) < |distances| then p.ComputeCost(distances[Index(j, i, n)]) else 0
  }

  function CostOf(p: CostParams): (nat, nat) -> Cost {
    (i: nat, j: nat) => p.ComputeCost(SquaredHypot(i, j))
  }

  /** Costs read off correct distances are the costs of those distances. */
  lemma CostsFromDistances(p: CostParams, distances: seq<int>, costs: seq<Cost>, n: nat)
    requires distances == TableOf(n, SquaredHypot)
    requires costs == TableOf(n, CostAt(p, distances, n))
    ensures costs == TableOf(n, CostOf(p))
  {
    forall k | 0 <= k < n * n ensures costs[k] == TableOf(n, CostOf(p))[k] {
      var j, i := CellAtIndex(k, n, n);
      TableEntry(n, SquaredHypot, i, j);
      TableEntry(n, CostAt(p, distances, n), i, j);
      TableEntry(n, CostOf(p), i, j);
    }
  }

  // ---------------------------------------------------------------- parameters

  datatype Key = InflationRadius | CostScalingFactor | Enabled | InflateUnknown | InflateAroundUnknown | OtherKey

  /** A changed parameter: the layer and key its name is made of, and its typed value. */
  datatype Parameter = DoubleParameter(layer: string, key: Key, number: real)
                     | BoolParameter(layer: string, key: Key, flag: bool)
                     | OtherParameter

  /** The settings a parameter event can change, and what the event asks for afterwards. */
  datatype Settings = Settings(radius: real, scaling: real, enabled: bool, unknown: bool, around: bool,
                               reinflate: bool, recompute: bool) {
    /** The effect of one parameter: a value equal to the current one changes nothing. */
    function With(layer: string, p: Parameter): Settings {
      match p
      case DoubleParameter(owner, key, v) =>
        if owner == layer && key == InflationRadius && radius != v then
          this.(radius := v, reinflate := true, recompute := true)
        else if owner == layer && key == CostScalingFactor && scaling != v then
          this.(scaling := v, reinflate := true, recompute := true)
        else this
      case BoolParameter(owner, key, v) =>
        if owner == layer && key == Enabled && enabled != v then this.(enabled := v, reinflate := true)
        else if owner == layer && key == InflateUnknown && unknown != v then this.(unknown := v, reinflate := true)
        else if owner == layer && key == InflateAroundUnknown && around != v then this.(around := v, reinflate := true)
        else this
      case OtherParameter => this
    }

    function WithAll(layer: string, ps: seq<Parameter>): Settings {
      if ps == [] then this else WithAll(layer, ps[..|ps| - 1]).With(layer, ps[|ps| - 1])
    }
  }

  datatype Value = Number(number: real) | Flag(flag: bool) | NoValue

  /** The setting a key stands for. */
  function Setting(s: Settings, key: Key): Value {
    match key
    case InflationRadius => Number(s.radius)
    case CostScalingFactor => Number(s.scaling)
    case Enabled => Flag(s.enabled)
    case InflateUnknown => Flag(s.unknown)
    case InflateAroundUnknown => Flag(s.around)
    case OtherKey => NoValue
  }

  /** The value a parameter gives to a key of the layer: none if it is of another layer, key or type. */
  function Given(p: Parameter, layer: string, key: Key): Value {
    match p
    case DoubleParameter(owner, k, v) =>
      if owner == layer && k == key && (key == InflationRadius || key == CostScalingFactor) then Number(v) else NoValue
    case BoolParameter(owner, k, v) =>
      if owner == layer && k == key && (key == Enabled || key == InflateUnknown || key == InflateAroundUnknown)
      then Flag(v) else NoValue
    case OtherParameter => NoValue
  }

  lemma OneParameter(s: Settings, layer: string, p: Parameter, key: Key)
    ensures Setting(s.With(layer, p), key) == if Given(p, layer, key) == NoValue then Setting(s, key)
                                              else Given(p, layer, key)
  {
  }

  /** A parameter asks for reinflation exactly if it changes a setting, and for new caches if these depend on it. */
  lemma ChangesAsk(s: Settings, layer: string, p: Parameter)
    ensures var s' := s.With(layer, p);
      && (s'.recompute <==> s.recompute || s'.radius != s.radius || s'.scaling != s.scaling)
      && (s'.reinflate <==> s.reinflate || s'.radius != s.radius || s'.scaling != s.scaling || s'.enabled != s.enabled
                            || s'.unknown != s.unknown || s'.around != s.around)
  {
  }

  /** `v` is what the last parameter of the event that gives the key a value gives it; `NoValue` if there is none. */
  ghost predicate LastGiven(ps: seq<Parameter>, layer: string, key: Key, v: Value) {
    if v == NoValue then forall k :: 0 <= k < |ps| ==> Given(ps[k], layer, key) == NoValue
    else exists k :: 0 <= k < |ps| && Given(ps[k], layer, key) == v
                     && forall j :: k < j < |ps| ==> Given(ps[j], layer, key) == NoValue
  }

  /** After an event every setting has the value last given to it, and is as it was if none was. */
  lemma {:induction false} LastGivenWins(s: Settings, layer: string, ps: seq<Parameter>, key: Key, v: Value)
    requires LastGiven(ps, layer, key, v)
    ensures Setting(s.WithAll(layer, ps), key) == if v == NoValue then Setting(s, key) else v
  {
    if ps != [] {
      var n := |ps| - 1;
      OneParameter(s.WithAll(layer, ps[..n]), layer, ps[n], key);
      if Given(ps[n], layer, key) == NoValue {
        LastGivenWins(s, layer, ps[..n], key, v);
      }
    }
  }

  /** The setting of a key after an event, from what it was and the values given. */
  ghost predicate Gets(layer: string, ps: seq<Parameter>, key: Key, before: Value, after: Value) {
    forall v :: LastGiven(ps, layer, key, v) ==> after == if v == NoValue then before else v
  }

  /** Every setting has the value last given to its key, or what it had. */
  ghost predicate ValuesGiven(layer: string, ps: seq<Parameter>, radius: real, scaling: real, enabled: bool,
                              unknown: bool, around: bool, radius': real, scaling': real, enabled': bool,
                              unknown': bool, around': bool) {
    && Gets(layer, ps, InflationRadius, Number(radius), Number(radius'))
    && Gets(layer, ps, CostScalingFactor, Number(scaling), Number(scaling'))
    && Gets(layer, ps, Enabled, Flag(enabled), Flag(enabled'))
    && Gets(layer, ps, InflateUnknown, Flag(unknown), Flag(unknown'))
    && Gets(layer, ps, InflateAroundUnknown, Flag(around), Flag(around'))
  }

  lemma ValuesAreGiven(s: Settings, s': Settings, layer: string, ps: seq<Parameter>)
    requires s' == s.WithAll(layer, ps)
    ensures ValuesGiven(layer, ps, s.radius, s.scaling, s.enabled, s.unknown, s.around, s'.radius, s'.scaling,
                        s'.enabled, s'.unknown, s'.around)
  {
    forall key, v | LastGiven(ps, layer, key, v)
      ensures Setting(s', key) == if v == NoValue then Setting(s, key) else v
    {
      LastGivenWins(s, layer, ps, key, v);
    }
  }

  /** If no recomputation is asked for, nothing the caches depend on has changed. */
  lemma {:induction false} RecomputeCoversChanges(s: Settings, layer: string, ps: seq<Parameter>)
    requires !s.WithAll(layer, ps).recompute
    ensures s.WithAll(layer, ps).radius == s.radius && s.WithAll(layer, ps).scaling == s.scaling && !s.recompute
  {
    if ps != [] {
      RecomputeCoversChanges(s, layer, ps[..|ps| - 1]);
    }
  }

  /** If no reinflation is asked for, the event changed no setting at all. */
  lemma {:induction false} ReinflateCoversChanges(s: Settings, layer: string, ps: seq<Parameter>)
    requires !s.WithAll(layer, ps).reinflate
    ensures s.WithAll(layer, ps) == s
  {
    if ps != [] {
      ReinflateCoversChanges(s, layer, ps[..|ps| - 1]);
    }
  }

  // ---------------------------------------------------------------- cache lookups

  /** The cache fields of the layer, as one value. */
  datatype Caches = Caches(radius: nat, length: nat, distances: seq<int>, costs: seq<Cost>, matrix: Matrix) {
    ghost predicate Shaped() {
      && length == radius + 2
      && |distances| == |costs| == length * length
      && IsSquareMatrix(matrix, length)
    }

    static predicate Near(n: Cell, s: Cell, k: nat) {
      Abs(n.x - s.x) <= k && Abs(n.y - s.y) <= k
    }

    function Slot(n: Cell, s: Cell): (i: nat)
      requires length == radius + 2 && Near(n, s, radius + 1)
      ensures i < length * length
    {
      IndexBound(Abs(n.y - s.y), Abs(n.x - s.x), length, length);
      Index(Abs(n.y - s.y), Abs(n.x - s.x), length)
    }

    /** `distanceLookup`, squared. */
    function DistanceLookup(n: Cell, s: Cell): int
      requires Shaped() && Near(n, s, radius + 1)
    {
      distances[Slot(n, s)]
    }

    /** `costLookup`. */
    function CostLookup(n: Cell, s: Cell): Cost
      requires Shaped() && Near(n, s, radius + 1)
    {
      costs[Slot(n, s)]
    }

    /** The bin `enqueue` reads from `distance_matrix_`. */
    function BinLookup(n: Cell, s: Cell): int
      requires Shaped() && Near(n, s, radius + 1)
    {
      Entry(matrix, length, Offset(n.x - s.x, n.y - s.y))
    }

    /** The lookups give the radius test and bins of `f`, and `cost`, at every index they are used with. */
    ghost predicate Implements(f: Field, cost: (Cell, Cell) -> Cost) {
      && Shaped()
      && (forall n, s :: f.within(n, s) ==> Near(n, s, radius))
      && (forall n, s {:trigger DistanceLookup(n, s)} :: Near(n, s, radius + 1) ==>
            (DistanceLookup(n, s) <= radius * radius <==> f.within(n, s)))
      && (forall n, s {:trigger BinLookup(n, s)} :: f.within(n, s) ==> BinLookup(n, s) == f.level(n, s))
      && (forall n, s {:trigger CostLookup(n, s)} :: f.within(n, s) ==> CostLookup(n, s) == cost(n, s))
    }
  }

  /** A fresh computation of every cache of side `n`, for cell radius `radius` and cost parameters `p`. */
  ghost predicate FreshOfSide(n: nat, k: Caches, bins: nat, radius: nat, p: CostParams) {
    && n == k.length == radius + 2 && k.radius == radius
    && k.distances == TableOf(n, SquaredHypot)
    && k.costs == TableOf(n, CostOf(p))
    && IsLevelMatrix(k.matrix, n)
    && bins == Level(n * n) + 1
  }

  ghost predicate FreshCaches(k: Caches, bins: nat, radius: nat, p: CostParams) {
    exists n: nat :: FreshOfSide(n, k, bins, radius, p)
  }

  function AbsNorm(n: Cell, s: Cell): int {
    SquaredHypot(Abs(n.x - s.x), Abs(n.y - s.y))
  }

  lemma AbsNormIsDist(n: Cell, s: Cell)
    ensures AbsNorm(n, s) == Dist(n, s)
  {
    var dx, dy := n.x - s.x, n.y - s.y;
    assert Abs(dx) * Abs(dx) == dx * dx;
    assert Abs(dy) * Abs(dy) == dy * dy;
  }

  lemma DiscInLargerDisc(radius: nat, p: Offset)
    requires InDisc(radius, p)
    ensures InDisc(radius + 2, p)
  {
    assert (radius + 2) * (radius + 2) == radius * radius + 4 * radius + 4;
  }

  lemma FreshIsShaped(k: Caches, bins: nat, radius: nat, p: CostParams)
    requires FreshCaches(k, bins, radius, p)
    ensures k.Shaped() && k.radius == radius
  {
  }

  lemma FreshDistance(k: Caches, bins: nat, radius: nat, p: CostParams, n: Cell, s: Cell)
    requires FreshCaches(k, bins, radius, p) && k.Shaped() && Caches.Near(n, s, radius + 1)
    ensures k.DistanceLookup(n, s) == Dist(n, s)
  {
    TableEntry(k.length, SquaredHypot, Abs(n.x - s.x), Abs(n.y - s.y));
    AbsNormIsDist(n, s);
  }

  lemma FreshNear(radius: nat, n: Cell, s: Cell)
    requires Dist(n, s) <= radius * radius
    ensures Caches.Near(n, s, radius)
  {
    DiscInSquare(radius, Offset(n.x - s.x, n.y - s.y));
  }

  lemma FreshBin(k: Caches, bins: nat, radius: nat, p: CostParams, n: Cell, s: Cell)
    requires FreshCaches(k, bins, radius, p) && k.Shaped() && Caches.Near(n, s, radius) && Dist(n, s) <= radius * radius
    ensures k.BinLookup(n, s) == Level(Dist(n, s))
  {
    DiscInLargerDisc(radius, Offset(n.x - s.x, n.y - s.y));
  }

  lemma FreshCost(k: Caches, bins: nat, radius: nat, p: CostParams, n: Cell, s: Cell)
    requires FreshCaches(k, bins, radius, p) && k.Shaped() && Caches.Near(n, s, radius)
    ensures k.CostLookup(n, s) == p.ComputeCost(Dist(n, s))
  {
    TableEntry(k.length, CostOf(p), Abs(n.x - s.x), Abs(n.y - s.y));
    AbsNormIsDist(n, s);
  }

  /** Fresh caches answer every lookup of the wavefront as the definitions do; no index is out of range. */
  lemma FreshCachesImplement(k: Caches, bins: nat, radius: nat, p: CostParams, f: Field)
    requires FreshCaches(k, bins, radius, p)
    requires forall n, s :: f.within(n, s) <==> Dist(n, s) <= radius * radius
    requires forall n, s :: f.level(n, s) == Level(Dist(n, s))
    ensures k.Implements(f, (c: Cell, s: Cell) => p.ComputeCost(Dist(c, s)))
  {
    FreshIsShaped(k, bins, radius, p);
    forall n, s | f.within(n, s) ensures Caches.Near(n, s, radius) {
      FreshNear(radius, n, s);
    }
    forall n, s | Caches.Near(n, s, radius + 1) ensures k.DistanceLookup(n, s) <= radius * radius <==> f.within(n, s) {
      FreshDistance(k, bins, radius, p, n, s);
    }
    forall n, s | f.within(n, s) ensures k.BinLookup(n, s) == f.level(n, s) {
      FreshBin(k, bins, radius, p, n, s);
    }
    forall n, s | f.within(n, s) ensures k.CostLookup(n, s) == p.ComputeCost(Dist(n, s)) {
      FreshCost(k, bins, radius, p, n, s);
    }
  }

  /** What the wavefront is told about the caches: the field they implement, and its costs. */
  datatype Context = Context(
    f: Field,
    cost: (Cell, Cell) -> Cost,
    caches: Caches,
    bins: nat,
    unknown: bool,
    apply: (Cost, Cell, Cell) -> Cost
  ) {
    ghost predicate Good() {
      && caches.Implements(f, cost)
      && (forall prior, c, s :: apply(prior, c, s) == Combine(unknown, prior, cost(c, s)))
      && (forall n, s :: f.within(n, s) ==> f.level(n, s) < bins)
      && f.WellIndexed()
    }

    ghost predicate RowMajor() {
      forall c {:trigger f.index(c)} :: f.index(c) == Index(c.x, c.y, f.width)
    }
  }

  ghost function ContextFor(w: nat, h: nat, seeds: set<Cell>, k: Caches, bins: nat, p: CostParams, unknown: bool)
    : Context
  {
    Context(MakeField(w, h, seeds, Dist, Level, k.radius * k.radius),
            (c: Cell, s: Cell) => p.ComputeCost(Dist(c, s)),
            k, bins, unknown, PaintWith(unknown, p.ComputeCost, Dist))
  }

  /** Fresh caches give the wavefront everything it relies on. */
  lemma ContextIsGood(w: nat, h: nat, seeds: set<Cell>, k: Caches, bins: nat, p: CostParams, unknown: bool)
    requires FreshCaches(k, bins, k.radius, p)
    requires forall s :: s in seeds ==> s.x < w && s.y < h
    ensures var ctx := ContextFor(w, h, seeds, k, bins, p, unknown);
            ctx.Good() && ctx.RowMajor() && ctx.f.WellRanked(bins)
  {
    Squares(k.radius);
    LevelsRankDistances(k.radius);
    DistIsGeometric();
    FieldWellRanked(w, h, seeds, Dist, Level, k.radius * k.radius, bins);
    FieldWellIndexed(w, h, seeds, Dist, Level, k.radius * k.radius);
    FreshCachesImplement(k, bins, k.radius, p, MakeField(w, h, seeds, Dist, Level, k.radius * k.radius));
  }

  /** The obstacles of the area that is scanned for a box. */
  ghost function Scanned(grid: seq<Cost>, w: nat, h: nat, aroundUnknown: bool, box: Box, radius: nat): set<Cell> {
    Obstacles(grid, w, h, aroundUnknown, box.Scan(radius, w, h))
  }

  /**
   What one call of `updateCosts` does to a `w` by `h` grid: `from` maps each inflated cell to an obstacle of the
   scanned area, every inflated cell of the box is combined once with the cost of its distance to that obstacle, and
   nothing else changes.
   */
  ghost predicate Outcome(w: nat, h: nat, dist: Metric, before: seq<Cost>, after: seq<Cost>, box: Box, radius: nat,
                          aroundUnknown: bool, inflateUnknown: bool, p: CostParams, from: map<Cell, Cell>) {
    && Inflated(w, h, Scanned(before, w, h, aroundUnknown, box, radius), dist, radius * radius, from)
    && Painted(w, h, before, after, from, box, PaintWith(inflateUnknown, p.ComputeCost, dist))
  }

  /** A finished wavefront, painted, is the outcome promised for the call. */
  ghost predicate Delivers(n: nat, ctx: Context, before: seq<Cost>, box: Box, radius: nat, aroundUnknown: bool,
                           p: CostParams) {
    forall after, from {:trigger Painted(ctx.f.width, ctx.f.height, before, after, from, box, ctx.apply)} ::
      Complete(ctx.f, from) && Painted(ctx.f.width, ctx.f.height, before, after, from, box, ctx.apply) ==>
      Outcome(ctx.f.width, ctx.f.height, Named(n), before, after, box, radius, aroundUnknown, ctx.unknown, p, from)
  }

  /** The outcome for squared distance, which `Named(n)` is for every `n`: see `OutcomeInSquaredDistances`. */
  ghost predicate HasOutcome(w: nat, h: nat, before: seq<Cost>, after: seq<Cost>, box: Box, radius: nat,
                             aroundUnknown: bool, inflateUnknown: bool, p: CostParams, from: map<Cell, Cell>) {
    exists n: nat :: Outcome(w, h, Named(n), before, after, box, radius, aroundUnknown, inflateUnknown, p, from)
  }

  lemma Delivered(w: nat, h: nat, ctx: Context, before: seq<Cost>, after: seq<Cost>, box: Box, radius: nat,
                  aroundUnknown: bool, p: CostParams, from: map<Cell, Cell>)
    requires ctx.f.width == w && ctx.f.height == h
    requires exists n: nat :: Delivers(n, ctx, before, box, radius, aroundUnknown, p)
    requires Complete(ctx.f, from) && Painted(w, h, before, after, from, box, ctx.apply)
    ensures HasOutcome(w, h, before, after, box, radius, aroundUnknown, ctx.unknown, p, from)
  {
    var n: nat :| Delivers(n, ctx, before, box, radius, aroundUnknown, p);
    assert Outcome(w, h, Named(n), before, after, box, radius, aroundUnknown, ctx.unknown, p, from);
  }

  lemma OutcomeInSquaredDistances(w: nat, h: nat, before: seq<Cost>, after: seq<Cost>, box: Box, radius: nat,
                                  aroundUnknown: bool, inflateUnknown: bool, p: CostParams, from: map<Cell, Cell>)
    ensures HasOutcome(w, h, before, after, box, radius, aroundUnknown, inflateUnknown, p, from) <==>
            Outcome(w, h, Dist, before, after, box, radius, aroundUnknown, inflateUnknown, p, from)
  {
    assert Named(0) == Dist;
    forall n: nat ensures Named(n) == Dist {
      DistanceNamed(n);
    }
  }

  /** At most one entry per obstacle of the scanned area and four per cell. */
  ghost predicate FewEntries(n: int, before: seq<Cost>, w: nat, h: nat, aroundUnknown: bool, box: Box, radius: nat) {
    n <= |Scanned(before, w, h, aroundUnknown, box, radius)| + 4 * (w * h)
  }

  /** The context of one inflation. */
  lemma MakeContext(w: nat, h: nat, before: seq<Cost>, box: Box, k: Caches, bins: nat, aroundUnknown: bool,
                    unknown: bool, p: CostParams) returns (ctx: Context)
    requires FreshCaches(k, bins, k.radius, p)
    ensures ctx.Good() && ctx.RowMajor() && ctx.f.WellRanked(bins)
    ensures ctx.f.width == w && ctx.f.height == h
    ensures ctx.f.seeds == Scanned(before, w, h, aroundUnknown, box, k.radius)
    ensures ctx.caches == k && ctx.bins == bins && ctx.unknown == unknown
    ensures exists n: nat :: Delivers(n, ctx, before, box, k.radius, aroundUnknown, p)
  {
    var seeds := Scanned(before, w, h, aroundUnknown, box, k.radius);
    ctx := ContextFor(w, h, seeds, k, bins, p, unknown);
    ContextIsGood(w, h, seeds, k, bins, p, unknown);
    forall from | Complete(ctx.f, from) ensures Inflated(w, h, seeds, Dist, k.radius * k.radius, from) {
      CompleteIsInflatedHere(w, h, seeds, k.radius, from);
    }
    assert Named(0) == Dist;
    assert Delivers(0, ctx, before, box, k.radius, aroundUnknown, p);
  }

  lemma CompleteIsInflatedHere(w: nat, h: nat, seeds: set<Cell>, radius: nat, from: map<Cell, Cell>)
    requires Complete(MakeField(w, h, seeds, Dist, Level, radius * radius), from)
    ensures Inflated(w, h, seeds, Dist, radius * radius, from)
  {
    Squares(radius);
    LevelsRankDistances(radius);
    CompleteIsInflated(w, h, seeds, Dist, Level, radius * radius, Level((radius + 2) * (radius + 2)) + 1, from);
  }

  /** `seen_` marks exactly the processed cells. */
  ghost predicate SeenMatches(seen: seq<bool>, f: Field, from: map<Cell, Cell>) {
    && |seen| == f.width * f.height
    && forall c :: f.InGrid(c) ==> f.index(c) < |seen| && (seen[f.index(c)] <==> c in from)
  }

  lemma MarkSeen(seen: seq<bool>, f: Field, from: map<Cell, Cell>, c: Cell, s: Cell)
    requires f.WellIndexed() && SeenMatches(seen, f, from) && f.InGrid(c)
    ensures SeenMatches(seen[f.index(c) := true], f, from[c := s])
  {
  }

  lemma PaintOne(w: nat, h: nat, before: seq<Cost>, after: seq<Cost>, from: map<Cell, Cell>, box: Box,
                 apply: (Cost, Cell, Cell) -> Cost, c: Cell, s: Cell)
    requires Painted(w, h, before, after, from, box, apply)
    requires c.x < w && c.y < h && c !in from
    ensures Index(c.x, c.y, w) < w * h && At(after, w, c) == At(before, w, c)
    ensures box.Contains(c) ==>
      Painted(w, h, before, after[Index(c.x, c.y, w) := apply(At(after, w, c), c, s)], from[c := s], box, apply)
    ensures !box.Contains(c) ==> Painted(w, h, before, after, from[c := s], box, apply)
  {
    forall a: Cell | a.x < w && a.y < h && a != c ensures Index(a.x, a.y, w) != Index(c.x, c.y, w) {
      IndexInjective(a.x, a.y, c.x, c.y, w);
    }
  }

  /** The cells of `all` that come before column `i` of row `j` in a row-by-row scan. */
  ghost function Before(all: set<Cell>, i: int, j: int): set<Cell> {
    set c | c in all && (c.y < j || (c.y == j && c.x < i))
  }

  lemma BeforeStep(all: set<Cell>, i: nat, j: nat)
    ensures Cell(i, j) in all ==> Before(all, i + 1, j) == Before(all, i, j) + {Cell(i, j)}
    ensures Cell(i, j) !in all ==> Before(all, i + 1, j) == Before(all, i, j)
    ensures Cell(i, j) !in Before(all, i, j)
  {
  }

  /** A scan of a box that covers `all` misses nothing at the ends of its rows. */
  lemma BeforeRowEnds(all: set<Cell>, box: Box, i: int, j: int)
    requires forall c :: c in all ==> box.Contains(c)
    ensures Before(all, box.minI, j) == Before(all, 0, j)
    ensures i >= box.maxI ==> Before(all, i, j) == Before(all, 0, j + 1)
    ensures Before(all, 0, box.minJ) == {}
    ensures j >= box.maxJ ==> Before(all, 0, j) == all
  {
  }

  type Indexing = Cell -> nat

  function SeedData(c: Cell, index: Indexing): CellData {
    CellData(index(c), c.x, c.y, c.x, c.y)
  }

  /** A bin with one entry per obstacle, each its own source. */
  ghost predicate Seeded(bin: seq<CellData>, found: set<Cell>, index: Indexing) {
    && (forall k :: 0 <= k < |bin| ==> bin[k].Here() in found && bin[k] == SeedData(bin[k].Here(), index))
    && (forall s :: s in found ==> SeedData(s, index) in bin)
    && |bin| == |found|
  }

  lemma SeedOne(bin: seq<CellData>, found: set<Cell>, index: Indexing, c: Cell)
    returns (r: seq<CellData>, found': set<Cell>)
    requires Seeded(bin, found, index) && c !in found
    ensures r == bin + [SeedData(c, index)] && found' == found + {c} && Seeded(r, found', index)
  {
    r, found' := bin + [SeedData(c, index)], found + {c};
  }

  /** `bin` and then the entries of the obstacles in columns `low` to `i` of row `j`. */
  ghost function RowEntries(bin: seq<CellData>, all: set<Cell>, index: Indexing, low: nat, i: int, j: nat)
    : seq<CellData>
    decreases i
  {
    if i <= low then bin
    else
      var r := RowEntries(bin, all, index, low, i - 1, j);
      if Cell(i - 1, j) in all then r + [SeedData(Cell(i - 1, j), index)] else r
  }

  /** The entries of the rows of the scanned area before row `j`. */
  ghost function AreaEntries(all: set<Cell>, index: Indexing, scan: Box, j: nat): seq<CellData>
    requires 0 <= scan.minI
    decreases j
  {
    if j <= scan.minJ || j == 0 then []
    else RowEntries(AreaEntries(all, index, scan, j - 1), all, index, scan.minI, scan.maxI, j - 1)
  }

  lemma {:induction false} RowIsSeeded(all: set<Cell>, index: Indexing, low: nat, i: nat, j: nat, bin: seq<CellData>,
                                       found: set<Cell>) returns (r: seq<CellData>, found': set<Cell>)
    requires low <= i && found == Before(all, low, j) && Seeded(bin, found, index)
    ensures r == RowEntries(bin, all, index, low, i, j) && found' == Before(all, i, j) && Seeded(r, found', index)
  {
    if i == low {
      r, found' := bin, found;
    } else {
      r, found' := RowIsSeeded(all, index, low, i - 1, j, bin, found);
      BeforeStep(all, i - 1, j);
      if Cell(i - 1, j) in all {
        r, found' := SeedOne(r, found', index, Cell(i - 1, j));
      }
    }
  }

  /** Gathering row by row gives each obstacle one entry. */
  lemma {:induction false} AreaIsSeeded(all: set<Cell>, index: Indexing, scan: Box, j: nat)
    returns (r: seq<CellData>, found: set<Cell>)
    requires 0 <= scan.minI && forall c :: c in all ==> scan.Contains(c)
    ensures r == AreaEntries(all, index, scan, j) && found == Before(all, 0, j) && Seeded(r, found, index)
  {
    if j <= scan.minJ || j == 0 {
      r, found := [], {};
    } else {
      r, found := AreaIsSeeded(all, index, scan, j - 1);
      BeforeRowEnds(all, scan, scan.maxI, j - 1);
      if scan.minI <= scan.maxI {
        r, found := RowIsSeeded(all, index, scan.minI, scan.maxI, j - 1, r, found);
      } else {
        assert Before(all, 0, j) == Before(all, 0, j - 1);
      }
    }
  }

  /** Which cells of a row are obstacles. */
  lemma ObstaclesOfRow(grid: seq<Cost>, w: nat, h: nat, aroundUnknown: bool, scan: Box, j: nat)
    requires |grid| == w * h && 0 <= scan.minI && scan.maxI <= w && scan.minJ <= j < scan.maxJ <= h
    ensures forall i: nat :: scan.minI <= i < scan.maxI ==>
      && Index(i, j, w) < |grid|
      && (Cell(i, j) in Obstacles(grid, w, h, aroundUnknown, scan) <==> IsObstacle(aroundUnknown, grid[Index(i, j, w)]))
  {
    forall i: nat | scan.minI <= i < scan.maxI
      ensures Index(i, j, w) < |grid|
      ensures Cell(i, j) in Obstacles(grid, w, h, aroundUnknown, scan) <==>
              IsObstacle(aroundUnknown, grid[Index(i, j, w)])
    {
      ObstacleHere(grid, w, h, aroundUnknown, scan, Cell(i, j));
    }
  }

  /** A seeded first bin is a valid start of the wavefront. */
  lemma SeededInv(f: Field, bins: Bins, bin: seq<CellData>)
    requires |bins| > 0 && f.WellRanked(|bins|)
    requires forall k :: 0 < k < |bins| ==> bins[k] == []
    requires bins[0] == bin && Seeded(bin, f.seeds, f.index)
    ensures Inv(f, Wave(bins, 0, 0, map[]))
    ensures Total(bins) == |f.seeds|
  {
    forall s | s in f.seeds ensures f.Data(s, s) in bins[0] {
      assert f.Data(s, s) == SeedData(s, f.index);
    }
    InitialInv(f, bins);
    TotalOfFirst(bins);
  }

  lemma NothingPaintedYet(w: nat, h: nat, grid: seq<Cost>, box: Box, apply: (Cost, Cell, Cell) -> Cost)
    requires |grid| == w * h
    ensures Painted(w, h, grid, grid, map[], box, apply)
  {
    forall c: Cell | c.x < w && c.y < h ensures Index(c.x, c.y, w) < w * h {
      IndexBound(c.x, c.y, w, h);
    }
  }

  // ---------------------------------------------------------------- the layer

  class InflationLayer {
    var enabled: bool
    var current: bool
    var needReinflation: bool
    var inflateUnknown: bool
    var inflateAroundUnknown: bool
    var inflationRadius: real
    var inscribedRadius: real
    var costScalingFactor: real
    var resolution: real
    var cellInflationRadius: nat
    var cachedCellInflationRadius: nat
    var cacheLength: nat
    var cachedDistances: seq<int>
    var cachedCosts: seq<Cost>
    var distanceMatrix: Matrix
    var inflationCells: Bins
    var seen: seq<bool>
    /** How many entries have ever been put on the inflation list. */
    ghost var queued: nat
    const name: string
    const decay: (real, real, real, int) -> Cost

    function CacheValues(): Caches
      reads this
    {
      Caches(cellInflationRadius, cacheLength, cachedDistances, cachedCosts, distanceMatrix)
    }

    /** The layer's caches are those of `ctx` and its bins can hold every level of `ctx`. */
    ghost predicate Ready(ctx: Context)
      reads this
    {
      CacheValues() == ctx.caches && |inflationCells| == ctx.bins && inflateUnknown == ctx.unknown
    }

    /** Entries queued that are not on the inflation list now: nothing but clearing the bins changes this. */
    ghost function Cleared(): int
      reads this
    {
      queued - Total(inflationCells)
    }

    /** `enqueue`. */
    method Enqueue(index: nat, mx: nat, my: nat, srcX: nat, srcY: nat, ghost ctx: Context, ghost from: map<Cell, Cell>)
      requires ctx.Good() && Ready(ctx) && SeenMatches(seen, ctx.f, from)
      requires ctx.f.InGrid(Cell(mx, my)) && index == ctx.f.index(Cell(mx, my))
      requires Caches.Near(Cell(mx, my), Cell(srcX, srcY), ctx.caches.radius + 1)
      modifies this`inflationCells, this`queued
      ensures Ready(ctx) && Cleared() == old(Cleared())
      ensures inflationCells == Wavefront.Enqueue(ctx.f, old(inflationCells), from, Cell(mx, my), Cell(srcX, srcY))
    {
      ghost var n, s := Cell(mx, my), Cell(srcX, srcY);
      if !seen[index] {
        var distance := CacheValues().DistanceLookup(Cell(mx, my), Cell(srcX, srcY));
        if distance > cellInflationRadius * cellInflationRadius {
          return;
        }
        assert ctx.f.within(n, s);
        var bin := CacheValues().BinLookup(Cell(mx, my), Cell(srcX, srcY));
        TotalAfterAppend(inflationCells, bin, CellData(index, mx, my, srcX, srcY));
        inflationCells := inflationCells[bin := inflationCells[bin] + [CellData(index, mx, my, srcX, srcY)]];
        queued := queued + 1;
      }
    }

    /** The `k`-th guarded call of `enqueue` for a processed cell. */
    method EnqueueIf(guard: bool, index: int, mx: int, my: int, d: CellData,
                     ghost k: nat, ghost ctx: Context, ghost from: map<Cell, Cell>, ghost bins: Bins)
      requires ctx.Good() && Ready(ctx) && SeenMatches(seen, ctx.f, from)
      requires ctx.f.within(d.Here(), d.Source()) && k < 4
      requires guard ==> mx >= 0 && my >= 0 && ctx.f.InGrid(Cell(mx, my)) && index == ctx.f.index(Cell(mx, my))
      requires guard ==> Adjacent(d.Here(), Cell(mx, my))
      requires Neighbours(ctx.f, d.Here())[k] == if guard then Some(Cell(mx, my)) else None
      requires |bins| == ctx.bins
      requires inflationCells == EnqueueFirst(ctx.f, bins, from, Neighbours(ctx.f, d.Here()), k, d.Source())
      modifies this`inflationCells, this`queued
      ensures Ready(ctx) && Cleared() == old(Cleared())
      ensures inflationCells == EnqueueFirst(ctx.f, bins, from, Neighbours(ctx.f, d.Here()), k + 1, d.Source())
    {
      if guard {
        Enqueue(index, mx, my, d.srcX, d.srcY, ctx, from);
      }
    }

    /** The guarded calls for the left and the lower neighbour. */
    method EnqueueLower(d: CellData, sizeX: nat, sizeY: nat,
                        ghost ctx: Context, ghost from: map<Cell, Cell>, ghost bins: Bins)
      requires ctx.Good() && Ready(ctx) && SeenMatches(seen, ctx.f, from)
      requires sizeX == ctx.f.width && sizeY == ctx.f.height
      requires ctx.f.InGrid(d.Here()) && d.index == ctx.f.index(d.Here())
      requires ctx.f.within(d.Here(), d.Source()) && |bins| == ctx.bins
      requires inflationCells == EnqueueFirst(ctx.f, bins, from, Neighbours(ctx.f, d.Here()), 0, d.Source())
      modifies this`inflationCells, this`queued
      ensures Ready(ctx) && Cleared() == old(Cleared())
      ensures inflationCells == EnqueueFirst(ctx.f, bins, from, Neighbours(ctx.f, d.Here()), 2, d.Source())
    {
      EnqueueIf(d.x > 0, d.index - 1, d.x - 1, d.y, d, 0, ctx, from, bins);
      EnqueueIf(d.y > 0, d.index - sizeX, d.x, d.y - 1, d, 1, ctx, from, bins);
    }

    /** The guarded calls for the right and the upper neighbour. */
    method EnqueueUpper(d: CellData, sizeX: nat, sizeY: nat,
                        ghost ctx: Context, ghost from: map<Cell, Cell>, ghost bins: Bins)
      requires ctx.Good() && Ready(ctx) && SeenMatches(seen, ctx.f, from)
      requires sizeX == ctx.f.width && sizeY == ctx.f.height
      requires ctx.f.InGrid(d.Here()) && d.index == ctx.f.index(d.Here())
      requires ctx.f.within(d.Here(), d.Source()) && |bins| == ctx.bins
      requires inflationCells == EnqueueFirst(ctx.f, bins, from, Neighbours(ctx.f, d.Here()), 2, d.Source())
      modifies this`inflationCells, this`queued
      ensures Ready(ctx) && Cleared() == old(Cleared())
      ensures inflationCells == EnqueueFirst(ctx.f, bins, from, Neighbours(ctx.f, d.Here()), 4, d.Source())
    {
      EnqueueIf(d.x < sizeX - 1, d.index + 1, d.x + 1, d.y, d, 2, ctx, from, bins);
      EnqueueIf(d.y < sizeY - 1, d.index + sizeX, d.x, d.y + 1, d, 3, ctx, from, bins);
    }

    /** The write of one processed cell, only inside the box. */
    method WriteCost(master: Costmap2D, index: nat, mx: nat, my: nat, cost: Cost, box: Box)
      requires index < master.costmap.Length
      modifies master.costmap
      ensures master.costmap[..] ==
              if box.Contains(Cell(mx, my))
              then old(master.costmap[..])[index := Combine(inflateUnknown, old(master.costmap[index]), cost)]
              else old(master.costmap[..])
      ensures box.minI <= mx < box.maxI && box.minJ <= my < box.maxJ ==>
        && (old(master.costmap[index]) != 255 ==> master.costmap[index] == Max(old(master.costmap[index]), cost))
        && (old(master.costmap[index]) == 255 ==>
              master.costmap[index] == if (inflateUnknown && cost > 0) || cost >= 253 then cost else 255)
    {
      var oldCost := master.costmap[index];
      if mx >= box.minI && my >= box.minJ && mx < box.maxI && my < box.maxJ {
        if oldCost == NO_INFORMATION
           && (if inflateUnknown then cost > FREE_SPACE else cost >= INSCRIBED_INFLATED_OBSTACLE)
        {
          master.costmap[index] := cost;
        } else {
          master.costmap[index] := Max(oldCost, cost);
        }
      }
    }

    /** The body of the scan for a cell that has not been seen. */
    method ProcessCell(master: Costmap2D, d: CellData, sizeX: nat, sizeY: nat, box: Box,
                       ghost ctx: Context, ghost from: map<Cell, Cell>, ghost before: seq<Cost>)
      requires ctx.Good() && Ready(ctx) && SeenMatches(seen, ctx.f, from)
      requires sizeX == ctx.f.width && sizeY == ctx.f.height && d == ctx.f.Data(d.Here(), d.Source())
      requires ctx.f.InGrid(d.Here()) && ctx.f.within(d.Here(), d.Source()) && d.Here() !in from
      requires d.index == Index(d.x, d.y, sizeX)
      requires Painted(sizeX, sizeY, before, master.costmap[..], from, box, ctx.apply)
      modifies this`seen, this`inflationCells, this`queued, master.costmap
      ensures Ready(ctx) && Cleared() == old(Cleared()) && SeenMatches(seen, ctx.f, from[d.Here() := d.Source()])
      ensures Painted(sizeX, sizeY, before, master.costmap[..], from[d.Here() := d.Source()], box, ctx.apply)
      ensures inflationCells == EnqueueFirst(ctx.f, old(inflationCells), from[d.Here() := d.Source()],
                                             Neighbours(ctx.f, d.Here()), 4, d.Source())
    {
      ghost var from' := from[d.Here() := d.Source()];
      ghost var bins := inflationCells;
      MarkSeen(seen, ctx.f, from, d.Here(), d.Source());
      seen := seen[d.index := true];
      var cost := CacheValues().CostLookup(d.Here(), d.Source());
      PaintOne(sizeX, sizeY, before, master.costmap[..], from, box, ctx.apply, d.Here(), d.Source());
      WriteCost(master, d.index, d.x, d.y, cost, box);
      EnqueueLower(d, sizeX, sizeY, ctx, from', bins);
      EnqueueUpper(d, sizeX, sizeY, ctx, from', bins);
    }

    /** What holds of the layer and the master between two steps of the scan. */
    ghost predicate Scanning(master: Costmap2D, w: Wave, box: Box, ctx: Context, before: seq<Cost>)
      reads this, master, master.costmap
    {
      && Ready(ctx)
      && inflationCells == w.bins
      && SeenMatches(seen, ctx.f, w.from)
      && Painted(ctx.f.width, ctx.f.height, before, master.costmap[..], w.from, box, ctx.apply)
    }

    /** The entry at `(w.b, w.i)`: skipped if its cell was seen, processed otherwise. */
    method ScanEntry(master: Costmap2D, d: CellData, sizeX: nat, sizeY: nat, box: Box, ghost w: Wave,
                     ghost ctx: Context, ghost before: seq<Cost>)
      returns (ghost w': Wave)
      requires ctx.Good() && ctx.RowMajor() && Scanning(master, w, box, ctx, before) && Inv(ctx.f, w)
      requires sizeX == ctx.f.width && sizeY == ctx.f.height
      requires w.b < |w.bins| && w.i < |w.bins[w.b]| && d == w.bins[w.b][w.i]
      modifies this`seen, this`inflationCells, this`queued, master.costmap
      ensures Scanning(master, w', box, ctx, before) && Inv(ctx.f, w') && Cleared() == old(Cleared())
      ensures w'.b == w.b && w'.i == w.i + 1 && |w'.bins| == |w.bins| && |w.bins[w.b]| <= |w'.bins[w.b]|
      ensures (|w'.from| == |w.from| && w'.bins == w.bins) || |w'.from| == |w.from| + 1
      ensures |w'.from| <= sizeX * sizeY
      ensures Total(w'.bins) - 4 * |w'.from| <= Total(w.bins) - 4 * |w.from|
    {
      assert EntryOk(ctx.f, d, w.b);
      if seen[d.index] {
        SkipKeepsInv(ctx.f, w);
        w' := w.(i := w.i + 1);
      } else {
        VisitStep(ctx.f, w);
        w' := Visit(ctx.f, w);
        ProcessCell(master, d, sizeX, sizeY, box, ctx, w.from, before);
      }
      ProcessedCount(ctx.f, w');
    }

    /** One bin is scanned by index, since entries are appended to it and to later bins meanwhile. */
    method ScanEntries(master: Costmap2D, b: nat, sizeX: nat, sizeY: nat, box: Box, ghost w0: Wave,
                       ghost ctx: Context, ghost before: seq<Cost>)
      returns (ghost w: Wave)
      requires ctx.Good() && ctx.RowMajor() && Scanning(master, w0, box, ctx, before) && Inv(ctx.f, w0)
      requires sizeX == ctx.f.width && sizeY == ctx.f.height
      requires w0.b == b < |w0.bins| && w0.i == 0
      modifies this`seen, this`inflationCells, this`queued, master.costmap
      ensures Scanning(master, w, box, ctx, before) && Inv(ctx.f, w) && Cleared() == old(Cleared())
      ensures w.b == b < |w.bins| == |w0.bins| && w.i == |w.bins[b]|
      ensures Total(w.bins) - 4 * |w.from| <= Total(w0.bins) - 4 * |w0.from|
    {
      ProcessedCount(ctx.f, w0);
      ghost var cells := sizeX * sizeY;
      w := w0;
      var i := 0;
      while i < |inflationCells[b]|
        invariant w.b == b < |w.bins| == |w0.bins| && w.i == i <= |w.bins[b]|
        invariant Scanning(master, w, box, ctx, before) && Inv(ctx.f, w) && Cleared() == old(Cleared())
        invariant Total(w.bins) - 4 * |w.from| <= Total(w0.bins) - 4 * |w0.from|
        invariant |w.from| <= cells == sizeX * sizeY
        decreases cells - |w.from|, |inflationCells[b]| - i
      {
        w := ScanEntry(master, inflationCells[b][i], sizeX, sizeY, box, w, ctx, before);
        i := i + 1;
      }
    }

    /** One bin, and on to the next. */
    method ScanBin(master: Costmap2D, b: nat, sizeX: nat, sizeY: nat, box: Box, ghost w0: Wave,
                   ghost ctx: Context, ghost before: seq<Cost>)
      returns (ghost w: Wave)
      requires ctx.Good() && ctx.RowMajor() && Scanning(master, w0, box, ctx, before) && Inv(ctx.f, w0)
      requires sizeX == ctx.f.width && sizeY == ctx.f.height
      requires w0.b == b < |w0.bins| && w0.i == 0
      modifies this`seen, this`inflationCells, this`queued, master.costmap
      ensures Scanning(master, w, box, ctx, before) && Inv(ctx.f, w) && Cleared() == old(Cleared())
      ensures w.b == b + 1 && w.i == 0 && |w.bins| == |w0.bins|
      ensures Total(w.bins) - 4 * |w.from| <= Total(w0.bins) - 4 * |w0.from|
    {
      w := ScanEntries(master, b, sizeX, sizeY, box, w0, ctx, before);
      w := NextBinKeepsInv(ctx.f, w);
    }

    /** The bins are scanned in order of distance. */
    method Propagate(master: Costmap2D, sizeX: nat, sizeY: nat, box: Box,
                     ghost ctx: Context, ghost before: seq<Cost>)
      returns (ghost from: map<Cell, Cell>)
      requires ctx.Good() && ctx.RowMajor() && sizeX == ctx.f.width && sizeY == ctx.f.height
      requires var w := Wave(inflationCells, 0, 0, map[]);
        Scanning(master, w, box, ctx, before) && Inv(ctx.f, w)
      modifies this`seen, this`inflationCells, this`queued, master.costmap
      ensures Ready(ctx) && Complete(ctx.f, from) && Cleared() == old(Cleared())
      ensures Painted(sizeX, sizeY, before, master.costmap[..], from, box, ctx.apply)
      ensures Total(inflationCells) <= Total(old(inflationCells)) + 4 * |from| && |from| <= sizeX * sizeY
    {
      ghost var w := Wave(inflationCells, 0, 0, map[]);
      ghost var start := Total(inflationCells);
      for b := 0 to |inflationCells|
        invariant w.b == b && w.i == 0 && |inflationCells| == ctx.bins
        invariant Scanning(master, w, box, ctx, before) && Inv(ctx.f, w) && Cleared() == old(Cleared())
        invariant Total(w.bins) - 4 * |w.from| <= start
      {
        w := ScanBin(master, b, sizeX, sizeY, box, w, ctx, before);
      }
      FinalState(ctx.f, w);
      ProcessedCount(ctx.f, w);
      from := w.from;
    }

    ghost predicate BinsEmpty()
      reads this
    {
      forall k :: 0 <= k < |inflationCells| ==> inflationCells[k] == []
    }

    /** Obstacles of the scanned area are gathered row by row for the bin of distance 0. */
    method GatherObstacles(master: Costmap2D, scan: Box, ghost all: set<Cell>, ghost index: Indexing)
      returns (bin: seq<CellData>)
      requires master.Valid() && forall c {:trigger index(c)} :: index(c) == Index(c.x, c.y, master.sizeX)
      requires 0 <= scan.minI && 0 <= scan.minJ && scan.maxI <= master.sizeX && scan.maxJ <= master.sizeY
      requires all == Obstacles(master.costmap[..], master.sizeX, master.sizeY, inflateAroundUnknown, scan)
      modifies this`queued
      ensures Seeded(bin, all, index) && queued == old(queued) + |bin|
    {
      bin := [];
      var j := scan.minJ;
      while j < scan.maxJ
        invariant scan.minJ <= j && bin == AreaEntries(all, index, scan, j) && queued == old(queued) + |bin|
      {
        ObstaclesOfRow(master.costmap[..], master.sizeX, master.sizeY, inflateAroundUnknown, scan, j);
        bin := GatherRow(master, scan, j, bin, all, index);
        j := j + 1;
      }
      BeforeRowEnds(all, scan, 0, j);
      ghost var entries, found := AreaIsSeeded(all, index, scan, j);
    }

    method GatherRow(master: Costmap2D, scan: Box, j: nat, bin0: seq<CellData>, ghost all: set<Cell>,
                     ghost index: Indexing)
      returns (bin: seq<CellData>)
      requires master.Valid() && forall c {:trigger index(c)} :: index(c) == Index(c.x, c.y, master.sizeX)
      requires 0 <= scan.minI && scan.minJ <= j < scan.maxJ <= master.sizeY && scan.maxI <= master.sizeX
      requires forall i: nat :: scan.minI <= i < scan.maxI ==>
        && Index(i, j, master.sizeX) < master.costmap.Length
        && (Cell(i, j) in all <==> IsObstacle(inflateAroundUnknown, master.costmap[Index(i, j, master.sizeX)]))
      modifies this`queued
      ensures bin == RowEntries(bin0, all, index, scan.minI, scan.maxI, j) && queued - |bin| == old(queued) - |bin0|
    {
      bin := bin0;
      var i := scan.minI;
      while i < scan.maxI
        invariant scan.minI <= i && (i == scan.minI || i <= scan.maxI)
        invariant bin == RowEntries(bin0, all, index, scan.minI, i, j)
        invariant queued - |bin| == old(queued) - |bin0|
      {
        var k := Index(i, j, master.sizeX);
        assert k == index(Cell(i, j));
        var cost := master.costmap[k];
        if cost == LETHAL_OBSTACLE || (inflateAroundUnknown && cost == NO_INFORMATION) {
          bin := bin + [CellData(k, i, j, i, j)];
          queued := queued + 1;
        }
        i := i + 1;
      }
    }

    function Params(): CostParams
      reads this
    {
      CostParams(inscribedRadius, costScalingFactor, resolution, decay)
    }

    /** Between two callbacks: bins are empty, and a non-zero radius has caches equal to a fresh computation. */
    ghost predicate Valid()
      reads this
    {
      && BinsEmpty()
      && DistancesKept()
      && (cellInflationRadius != 0 ==>
            FreshCaches(CacheValues(), |inflationCells|, cellInflationRadius, Params()))
    }

    /** What survives every parameter change: the distances fit the radius they were computed for. */
    ghost predicate DistancesKept()
      reads this
    {
      cachedCellInflationRadius != 0 ==>
        && cachedDistances == TableOf(cachedCellInflationRadius + 2, SquaredHypot)
        && |cachedCosts| == |cachedDistances|
    }

    /** `updateCosts`; at most one entry per obstacle and four per cell are queued. */
    method UpdateCosts(master: Costmap2D, minI: int, minJ: int, maxI: int, maxJ: int)
      returns (ghost from: map<Cell, Cell>)
      requires Valid() && master.Valid()
      modifies this`seen, this`inflationCells, this`queued, this`current, master.costmap
      ensures Valid()
      ensures !enabled || cellInflationRadius == 0 ==>
        master.costmap[..] == old(master.costmap[..]) && queued == old(queued)
      ensures enabled && cellInflationRadius != 0 ==>
        HasOutcome(master.sizeX, master.sizeY, old(master.costmap[..]), master.costmap[..], Box(minI, minJ, maxI, maxJ),
                   cellInflationRadius, inflateAroundUnknown, inflateUnknown,
                   CostParams(inscribedRadius, costScalingFactor, resolution, decay), from)
      ensures enabled && cellInflationRadius != 0 ==>
        FewEntries(queued - old(queued), old(master.costmap[..]), master.sizeX, master.sizeY, inflateAroundUnknown,
                   Box(minI, minJ, maxI, maxJ), cellInflationRadius)
    {
      from := map[];
      if !enabled || cellInflationRadius == 0 {
        return;
      }
      from := InflateBox(master, Box(minI, minJ, maxI, maxJ));
    }

    /** The inflation of one box, with the caches the layer has. */
    method InflateBox(master: Costmap2D, box: Box) returns (ghost from: map<Cell, Cell>)
      requires Valid() && master.Valid() && cellInflationRadius != 0
      modifies this`seen, this`inflationCells, this`queued, this`current, master.costmap
      ensures Valid()
      ensures HasOutcome(master.sizeX, master.sizeY, old(master.costmap[..]), master.costmap[..], box,
                         cellInflationRadius, inflateAroundUnknown, inflateUnknown, Params(), from)
      ensures FewEntries(queued - old(queued), old(master.costmap[..]), master.sizeX, master.sizeY,
                         inflateAroundUnknown, box, cellInflationRadius)
    {
      ghost var before := master.costmap[..];
      ghost var ctx := MakeContext(master.sizeX, master.sizeY, before, box, CacheValues(), |inflationCells|,
                                   inflateAroundUnknown, inflateUnknown, Params());
      from := Inflate(master, box, ctx);
      Delivered(master.sizeX, master.sizeY, ctx, before, master.costmap[..], box, cellInflationRadius,
                inflateAroundUnknown, Params(), from);
      current := true;
    }

    /** Gather the obstacles, spread them, and leave the bins empty for the next cycle. */
    method Inflate(master: Costmap2D, box: Box, ghost ctx: Context) returns (ghost from: map<Cell, Cell>)
      requires master.Valid() && BinsEmpty() && Ready(ctx)
      requires ctx.Good() && ctx.RowMajor() && ctx.f.WellRanked(ctx.bins) && ctx.bins > 0
      requires ctx.f.width == master.sizeX && ctx.f.height == master.sizeY
      requires ctx.f.seeds == Scanned(master.costmap[..], master.sizeX, master.sizeY, inflateAroundUnknown, box,
                                      cellInflationRadius)
      modifies this`seen, this`inflationCells, this`queued, master.costmap
      ensures Ready(ctx) && BinsEmpty() && Complete(ctx.f, from)
      ensures Painted(master.sizeX, master.sizeY, old(master.costmap[..]), master.costmap[..], from, box, ctx.apply)
      ensures queued - old(queued) <= |ctx.f.seeds| + 4 * (master.sizeX * master.sizeY)
    {
      var sizeX, sizeY := master.sizeX, master.sizeY;
      ghost var before := master.costmap[..];
      seen := seq(sizeX * sizeY, _ => false);
      var bin := GatherObstacles(master, box.Scan(cellInflationRadius, sizeX, sizeY), ctx.f.seeds, ctx.f.index);
      inflationCells := inflationCells[0 := bin];
      SeededInv(ctx.f, inflationCells, bin);
      NothingPaintedYet(ctx.f.width, ctx.f.height, before, box, ctx.apply);
      from := Propagate(master, sizeX, sizeY, box, ctx, before);
      inflationCells := seq(|inflationCells|, _ => []);
    }

    function CurrentSettings(recompute: bool): Settings
      reads this
    {
      Settings(inflationRadius, costScalingFactor, enabled, inflateUnknown, inflateAroundUnknown, needReinflation,
               recompute)
    }

    constructor (name: string, decay: (real, real, real, int) -> Cost)
      ensures Valid() && cellInflationRadius == 0 && this.name == name && this.decay == decay
      ensures inflationRadius == inscribedRadius == costScalingFactor == resolution == 0.0
      ensures !enabled && !current && !inflateUnknown && !inflateAroundUnknown
    {
      this.name, this.decay := name, decay;
      enabled, current, needReinflation, inflateUnknown, inflateAroundUnknown := false, false, false, false, false;
      inflationRadius, inscribedRadius, costScalingFactor, resolution := 0.0, 0.0, 0.0, 0.0;
      cellInflationRadius, cachedCellInflationRadius, cacheLength := 0, 0, 0;
      cachedDistances, cachedCosts, distanceMatrix, inflationCells, seen := [], [], [], [], [];
      queued := 0;
    }

    /** `computeCaches`: distances are refilled only when the cell radius differs from the cached one. */
    method ComputeCaches()
      requires BinsEmpty() && DistancesKept()
      modifies this`cacheLength, this`cachedDistances, this`cachedCosts, this`cachedCellInflationRadius
      modifies this`distanceMatrix, this`inflationCells
      ensures Valid()
    {
      if cellInflationRadius == 0 {
        return;
      }
      cacheLength := cellInflationRadius + 2;
      if cellInflationRadius != cachedCellInflationRadius {
        RefillDistances();
      }
      RefillCosts();
      RefillLevels();
      assert FreshOfSide(cacheLength, CacheValues(), |inflationCells|, cellInflationRadius, Params());
    }

    method RefillLevels()
      requires cacheLength == cellInflationRadius + 2
      modifies this`distanceMatrix, this`inflationCells
      ensures BinsEmpty() && IsLevelMatrix(distanceMatrix, cacheLength)
      ensures |inflationCells| == Level(cacheLength * cacheLength) + 1
    {
      var matrix, maxDist := GenerateIntegerDistances(cellInflationRadius);
      distanceMatrix := matrix;
      inflationCells := seq(maxDist + 1, _ => []);
    }

    method RefillDistances()
      requires cellInflationRadius != 0 && cacheLength == cellInflationRadius + 2
      modifies this`cachedDistances, this`cachedCosts, this`cachedCellInflationRadius
      ensures DistancesKept() && cachedCellInflationRadius == cellInflationRadius
    {
      cachedCosts := Resize(cachedCosts, cacheLength * cacheLength, 0);
      cachedDistances := Resize(cachedDistances, cacheLength * cacheLength, 0);
      cachedDistances := FillTable(cachedDistances, cacheLength, SquaredHypot);
      cachedCellInflationRadius := cellInflationRadius;
    }

    method RefillCosts()
      requires DistancesKept() && cachedCellInflationRadius == cellInflationRadius != 0
      requires cacheLength == cellInflationRadius + 2
      modifies this`cachedCosts
      ensures DistancesKept()
      ensures cachedCosts == TableOf(cacheLength, CostOf(Params()))
    {
      cachedCosts := FillTable(cachedCosts, cacheLength, CostAt(Params(), cachedDistances, cacheLength));
      CostsFromDistances(Params(), cachedDistances, cachedCosts, cacheLength);
    }

    /** `matchSize`. */
    method MatchSize(master: Costmap2D)
      requires BinsEmpty() && DistancesKept() && master.Valid()
      modifies this`resolution, this`cellInflationRadius, this`seen
      modifies this`cacheLength, this`cachedDistances, this`cachedCosts, this`cachedCellInflationRadius
      modifies this`distanceMatrix, this`inflationCells
      ensures Valid() && resolution == master.resolution
      ensures cellInflationRadius == CellDistance(inflationRadius, master.resolution)
      ensures |seen| == master.sizeX * master.sizeY
    {
      resolution := master.resolution;
      cellInflationRadius := CellDistance(inflationRadius, master.resolution);
      ComputeCaches();
      seen := seq(master.sizeX * master.sizeY, _ => false);
    }

    /** `onFootprintChanged`, given the new inscribed radius. */
    method OnFootprintChanged(inscribed: real, master: Costmap2D)
      requires Valid() && master.Valid()
      modifies this`inscribedRadius, this`cellInflationRadius, this`needReinflation
      modifies this`cacheLength, this`cachedDistances, this`cachedCosts, this`cachedCellInflationRadius
      modifies this`distanceMatrix, this`inflationCells
      ensures Valid() && inscribedRadius == inscribed && needReinflation
      ensures cellInflationRadius == CellDistance(inflationRadius, master.resolution)
    {
      inscribedRadius := inscribed;
      cellInflationRadius := CellDistance(inflationRadius, master.resolution);
      ComputeCaches();
      needReinflation := true;
    }

    /** The branches of `dynamicParametersCallback` for one parameter. */
    method ApplyParameter(p: Parameter, asked: bool) returns (needCacheRecompute: bool)
      modifies this`inflationRadius, this`costScalingFactor, this`enabled, this`inflateUnknown
      modifies this`inflateAroundUnknown, this`needReinflation, this`current
      ensures CurrentSettings(needCacheRecompute) == old(CurrentSettings(asked)).With(name, p)
      ensures current <==> old(current) && enabled == old(enabled)
    {
      needCacheRecompute := asked;
      match p {
        case DoubleParameter(owner, key, v) =>
          if owner == name && key == InflationRadius && inflationRadius != v {
            inflationRadius, needReinflation, needCacheRecompute := v, true, true;
          } else if owner == name && key == CostScalingFactor && costScalingFactor != v {
            costScalingFactor, needReinflation, needCacheRecompute := v, true, true;
          }
        case BoolParameter(owner, key, v) =>
          if owner == name && key == Enabled && enabled != v {
            enabled, needReinflation, current := v, true, false;
          } else if owner == name && key == InflateUnknown && inflateUnknown != v {
            inflateUnknown, needReinflation := v, true;
          } else if owner == name && key == InflateAroundUnknown && inflateAroundUnknown != v {
            inflateAroundUnknown, needReinflation := v, true;
          }
        case OtherParameter =>
      }
    }

    method ApplyParameters(ps: seq<Parameter>) returns (needCacheRecompute: bool)
      modifies this`inflationRadius, this`costScalingFactor, this`enabled, this`inflateUnknown
      modifies this`inflateAroundUnknown, this`needReinflation, this`current
      ensures CurrentSettings(needCacheRecompute) == old(CurrentSettings(false)).WithAll(name, ps)
      ensures ValuesGiven(name, ps, old(inflationRadius), old(costScalingFactor), old(enabled), old(inflateUnknown),
                          old(inflateAroundUnknown), inflationRadius, costScalingFactor, enabled, inflateUnknown,
                          inflateAroundUnknown)
      ensures enabled != old(enabled) ==> !current
    {
      needCacheRecompute := false;
      ghost var s := CurrentSettings(false);
      for k := 0 to |ps|
        invariant CurrentSettings(needCacheRecompute) == s.WithAll(name, ps[..k])
        invariant enabled != old(enabled) ==> !current
      {
        needCacheRecompute := ApplyParameter(ps[k], needCacheRecompute);
        assert ps[..k + 1][..k] == ps[..k];
      }
      assert ps[..|ps|] == ps;
      ValuesAreGiven(s, CurrentSettings(needCacheRecompute), name, ps);
    }

    /** The end of `dynamicParametersCallback`. */
    method Refresh(needCacheRecompute: bool, master: Costmap2D)
      requires BinsEmpty() && DistancesKept() && master.Valid() && (!needCacheRecompute ==> Valid())
      modifies this`resolution, this`cellInflationRadius, this`seen
      modifies this`cacheLength, this`cachedDistances, this`cachedCosts, this`cachedCellInflationRadius
      modifies this`distanceMatrix, this`inflationCells
      ensures Valid()
      ensures needCacheRecompute ==> cellInflationRadius == CellDistance(inflationRadius, master.resolution)
      ensures !needCacheRecompute ==> cellInflationRadius == old(cellInflationRadius)
    {
      if needCacheRecompute {
        MatchSize(master);
      }
    }

    /** `dynamicParametersCallback`: the caches are recomputed whenever something they depend on has changed. */
    method DynamicParameters(ps: seq<Parameter>, master: Costmap2D)
      requires Valid() && master.Valid()
      modifies this`inflationRadius, this`costScalingFactor, this`enabled, this`inflateUnknown
      modifies this`inflateAroundUnknown, this`needReinflation, this`current
      modifies this`resolution, this`cellInflationRadius, this`seen
      modifies this`cacheLength, this`cachedDistances, this`cachedCosts, this`cachedCellInflationRadius
      modifies this`distanceMatrix, this`inflationCells
      ensures Valid() && (enabled != old(enabled) ==> !current)
      ensures var s := old(CurrentSettings(false)).WithAll(name, ps);
        && CurrentSettings(s.recompute) == s
        && (s.recompute ==> cellInflationRadius == CellDistance(inflationRadius, master.resolution))
        && (!s.recompute ==> cellInflationRadius == old(cellInflationRadius))
      ensures ValuesGiven(name, ps, old(inflationRadius), old(costScalingFactor), old(enabled), old(inflateUnknown),
                          old(inflateAroundUnknown), inflationRadius, costScalingFactor, enabled, inflateUnknown,
                          inflateAroundUnknown)
    {
      var needCacheRecompute := ApplyParameters(ps);
      if !needCacheRecompute {
        RecomputeCoversChanges(old(CurrentSettings(false)), name, ps);
      }
      Refresh(needCacheRecompute, master);
    }
  }

  /** What can happen to a layer after its initialisation. */
  datatype Event = Resized | FootprintChanged(inscribed: real) | ParametersChanged(ps: seq<Parameter>)

  /** Over every run of events the caches agree with a fresh computation whenever the radius is non-zero. */
  method Run(layer: InflationLayer, events: seq<(Event, Costmap2D)>)
    requires layer.Valid() && forall k :: 0 <= k < |events| ==> events[k].1.Valid()
    modifies layer
    ensures layer.Valid()
    ensures layer.cellInflationRadius != 0 ==>
      FreshCaches(layer.CacheValues(), |layer.inflationCells|, layer.cellInflationRadius, layer.Params())
  {
    for k := 0 to |events|
      invariant layer.Valid()
    {
      match events[k].0 {
        case Resized => layer.MatchSize(events[k].1);
        case FootprintChanged(inscribed) => layer.OnFootprintChanged(inscribed, events[k].1);
        case ParametersChanged(ps) => layer.DynamicParameters(ps, events[k].1);
      }
    }
  }
}
