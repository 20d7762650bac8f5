/**
 The incremental update (`LayeredCostmap::updateMap`, window not rolling): layers report what they touched, only
 that window is reset and merged again, and filters work on a copy. The master grid nevertheless always equals a
 full recomputation.
 */
module Layered {
  import opened Grid
  import opened RollingWindow
  import opened Costmap
  import opened Coordinates
  import opened CostmapLayers

  // ---------------------------------------------------------------- full recomputation

  /** A cell after the first `k` layers, starting from `base`. */
  function Fold(layers: seq<Layer>, k: nat, w: nat, h: nat, x: int, y: int, base: Cost): Cost
    requires k <= |layers|
  {
    if k == 0 then base else MergeAt(layers[k - 1], w, h, x, y, Fold(layers, k - 1, w, h, x, y, base))
  }

  function FoldAll(layers: seq<Layer>, w: nat, h: nat, x: int, y: int, base: Cost): Cost {
    Fold(layers, |layers|, w, h, x, y, base)
  }

  /** What a cell of the master grid should hold: the filters applied to the merge of all plugins over the default. */
  function FullCell(plugins: seq<Layer>, filters: seq<Layer>, w: nat, h: nat, x: int, y: int, default: Cost): Cost {
    FoldAll(filters, w, h, x, y, FoldAll(plugins, w, h, x, y, default))
  }

  /** The layer looks the same at a cell. */
  ghost predicate SameAt(l: Layer, l': Layer, w: nat, h: nat, x: int, y: int) {
    && l.enabled == l'.enabled && l.combination == l'.combination
    && CellOf(l.costmap, w, h, x, y, NO_INFORMATION) == CellOf(l'.costmap, w, h, x, y, NO_INFORMATION)
  }

  ghost predicate AllSameAt(ls: seq<Layer>, ls': seq<Layer>, w: nat, h: nat, x: int, y: int) {
    |ls| == |ls'| && forall k :: 0 <= k < |ls| ==> SameAt(ls[k], ls'[k], w, h, x, y)
  }

  lemma {:induction false} FoldOfSame(ls: seq<Layer>, ls': seq<Layer>, k: nat, w: nat, h: nat, x: int, y: int,
                                      base: Cost)
    requires AllSameAt(ls, ls', w, h, x, y) && k <= |ls|
    ensures Fold(ls, k, w, h, x, y, base) == Fold(ls', k, w, h, x, y, base)
  {
    if k > 0 {
      FoldOfSame(ls, ls', k - 1, w, h, x, y, base);
    }
  }

  /** The layer replaces the cell by its own, whatever it held. */
  ghost predicate Replaces(l: Layer, w: nat, h: nat, x: int, y: int) {
    && l.enabled
    && (l.combination == TrueOverwrite
        || (l.combination == Overwrite && CellOf(l.costmap, w, h, x, y, 255) != 255))
  }

  /** After a layer that replaces a cell, neither the layers before it nor what the cell held before matter. */
  lemma {:induction false} ReplacedIsForgotten(ls: seq<Layer>, ls': seq<Layer>, i: nat, n: nat, w: nat, h: nat, x: int,
                                               y: int, base: Cost, base': Cost)
    requires i < n <= |ls| == |ls'| && Replaces(ls[i], w, h, x, y)
    requires forall k :: i <= k < n ==> SameAt(ls[k], ls'[k], w, h, x, y)
    ensures Fold(ls, n, w, h, x, y, base) == Fold(ls', n, w, h, x, y, base')
    ensures n == i + 1 ==> Fold(ls, n, w, h, x, y, base) == CellOf(ls[i].costmap, w, h, x, y, 255)
  {
    assert SameAt(ls[n - 1], ls'[n - 1], w, h, x, y);
    if n == i + 1 {
      MergeIsPromised(ls[i].combination, CellOf(ls[i].costmap, w, h, x, y, 255), Fold(ls, i, w, h, x, y, base));
      MergeIsPromised(ls[i].combination, CellOf(ls[i].costmap, w, h, x, y, 255), Fold(ls', i, w, h, x, y, base'));
    } else {
      ReplacedIsForgotten(ls, ls', i, n - 1, w, h, x, y, base, base');
    }
  }

  /** The layer is not enabled, or knows nothing of the cell and does not replace it. */
  ghost predicate Silent(l: Layer, w: nat, h: nat, x: int, y: int) {
    !l.enabled || (l.combination != TrueOverwrite && CellOf(l.costmap, w, h, x, y, 255) == 255)
  }

  /** Silent layers leave the cell to the others. */
  lemma {:induction false} SilentLayers(ls: seq<Layer>, i: nat, n: nat, w: nat, h: nat, x: int, y: int, base: Cost)
    requires i <= n <= |ls| && forall k :: i <= k < n ==> Silent(ls[k], w, h, x, y)
    ensures Fold(ls, n, w, h, x, y, base) == Fold(ls, i, w, h, x, y, base)
  {
    if i < n {
      SilentLayers(ls, i, n - 1, w, h, x, y, base);
      var l := ls[n - 1];
      assert Silent(l, w, h, x, y);
      MergeIsPromised(l.combination, CellOf(l.costmap, w, h, x, y, 255), Fold(ls, n - 1, w, h, x, y, base));
    }
  }

  /** With silent filters the cell is the merge of the plugins, and with silent plugins too it is the default. */
  lemma SilentFilters(plugins: seq<Layer>, filters: seq<Layer>, w: nat, h: nat, x: int, y: int, default: Cost)
    requires forall k :: 0 <= k < |filters| ==> Silent(filters[k], w, h, x, y)
    ensures FullCell(plugins, filters, w, h, x, y, default) == FullCell(plugins, [], w, h, x, y, default)
    ensures (forall k :: 0 <= k < |plugins| ==> Silent(plugins[k], w, h, x, y)) ==>
      FullCell(plugins, filters, w, h, x, y, default) == default
  {
    SilentLayers(filters, 0, |filters|, w, h, x, y, FoldAll(plugins, w, h, x, y, default));
    if forall k :: 0 <= k < |plugins| ==> Silent(plugins[k], w, h, x, y) {
      SilentLayers(plugins, 0, |plugins|, w, h, x, y, default);
    }
  }

  /** The last filter, if it replaces the cell, has the last word over all plugins. */
  lemma LastFilterDecides(plugins: seq<Layer>, filters: seq<Layer>, w: nat, h: nat, x: int, y: int, default: Cost)
    requires filters != [] && Replaces(filters[|filters| - 1], w, h, x, y)
    ensures FullCell(plugins, filters, w, h, x, y, default) == CellOf(filters[|filters| - 1].costmap, w, h, x, y, 255)
  {
    var n := |filters|;
    ReplacedIsForgotten(filters, filters, n - 1, n, w, h, x, y, FoldAll(plugins, w, h, x, y, default), default);
  }

  /** Without filters the last plugin, if it replaces the cell, has the last word. */
  lemma LastPluginDecides(plugins: seq<Layer>, w: nat, h: nat, x: int, y: int, default: Cost)
    requires plugins != [] && Replaces(plugins[|plugins| - 1], w, h, x, y)
    ensures FullCell(plugins, [], w, h, x, y, default) == CellOf(plugins[|plugins| - 1].costmap, w, h, x, y, 255)
  {
    var n := |plugins|;
    ReplacedIsForgotten(plugins, plugins, n - 1, n, w, h, x, y, default, default);
  }

  /** What a layer that merges by maximum has to say about a cell. */
  function OwnAt(l: Layer, w: nat, h: nat, x: int, y: int): int {
    if l.enabled then Known(CellOf(l.costmap, w, h, x, y, NO_INFORMATION)) else -1
  }

  /** `v` is the largest of `base` and what the layers say. */
  ghost predicate IsLargest(v: int, ls: seq<Layer>, w: nat, h: nat, x: int, y: int, base: int) {
    && base <= v && (forall l :: l in ls ==> OwnAt(l, w, h, x, y) <= v)
    && (v == base || exists l :: l in ls && OwnAt(l, w, h, x, y) == v)
  }

  lemma {:induction false} FoldOfMaximums(ls: seq<Layer>, k: nat, w: nat, h: nat, x: int, y: int, base: Cost)
    requires k <= |ls| && forall l :: l in ls ==> l.combination == Maximum
    ensures IsLargest(Known(Fold(ls, k, w, h, x, y, base)), ls[..k], w, h, x, y, Known(base))
  {
    if k > 0 {
      FoldOfMaximums(ls, k - 1, w, h, x, y, base);
      var l, before := ls[k - 1], Fold(ls, k - 1, w, h, x, y, base);
      MaximumIsLargestKnown(CellOf(l.costmap, w, h, x, y, NO_INFORMATION), before);
      assert Known(Fold(ls, k, w, h, x, y, base)) == Max(OwnAt(l, w, h, x, y), Known(before));
      assert ls[..k] == ls[..k - 1] + [l];
    }
  }

  /** Layers that merge by maximum may be configured in any order. */
  lemma MaximumsInAnyOrder(ls: seq<Layer>, ls': seq<Layer>, w: nat, h: nat, x: int, y: int, base: Cost)
    requires multiset(ls) == multiset(ls') && forall l :: l in ls ==> l.combination == Maximum
    ensures FoldAll(ls, w, h, x, y, base) == FoldAll(ls', w, h, x, y, base)
  {
    forall l ensures l in ls <==> l in ls' {
      assert l in multiset(ls) <==> l in multiset(ls');
    }
    FoldOfMaximums(ls, |ls|, w, h, x, y, base);
    FoldOfMaximums(ls', |ls'|, w, h, x, y, base);
    assert ls[..|ls|] == ls && ls'[..|ls'|] == ls';
  }

  // ---------------------------------------------------------------- bounds and the window

  /** `minx_`, `miny_`, `maxx_`, `maxy_`; `Untouched` stands for the extreme values they start from. */
  datatype Bounds = Untouched | Touched(minX: real, minY: real, maxX: real, maxY: real) {
    predicate Contains(p: (real, real)) {
      Touched? && minX <= p.0 <= maxX && minY <= p.1 <= maxY
    }
  }

  function MinR(a: real, b: real): real {
    if b < a then b else a
  }

  function MaxR(a: real, b: real): real {
    if a < b then b else a
  }

  /** `touch`. */
  function Touch(b: Bounds, p: (real, real)): (b': Bounds)
    ensures b'.Contains(p) && forall q :: b.Contains(q) ==> b'.Contains(q)
  {
    match b
    case Untouched => Touched(p.0, p.1, p.0, p.1)
    case Touched(x, y, x', y') => Touched(MinR(p.0, x), MinR(p.1, y), MaxR(p.0, x'), MaxR(p.1, y'))
  }

  /** Every point some layer has touched lies within the bounds. */
  ghost predicate Bounding(b: Bounds, layers: seq<Layer>) {
    forall k, j :: 0 <= k < |layers| && 0 <= j < |layers[k].touched| ==> b.Contains(layers[k].touched[j])
  }

  predicate Within(b: Bounds, c: Bounds) {
    || b.Untouched?
    || (c.Touched? && c.minX <= b.minX && b.maxX <= c.maxX && c.minY <= b.minY && b.maxY <= c.maxY)
  }

  /** The smallest bounds that hold every point touched. */
  ghost predicate Smallest(b: Bounds, plugins: seq<Layer>, filters: seq<Layer>) {
    && Bounding(b, plugins) && Bounding(b, filters)
    && forall c :: Bounding(c, plugins) && Bounding(c, filters) ==> Within(b, c)
  }

  /** `updateBounds` of one layer. */
  method UpdateBounds(layer: Layer, b: Bounds) returns (b': Bounds)
    ensures forall j :: 0 <= j < |layer.touched| ==> b'.Contains(layer.touched[j])
    ensures forall q :: b.Contains(q) ==> b'.Contains(q)
    ensures forall c :: Within(b, c) && Bounding(c, [layer]) ==> Within(b', c)
  {
    b' := b;
    for j := 0 to |layer.touched|
      invariant forall i :: 0 <= i < j ==> b'.Contains(layer.touched[i])
      invariant forall q :: b.Contains(q) ==> b'.Contains(q)
      invariant forall c :: Within(b, c) && Bounding(c, [layer]) ==> Within(b', c)
    {
      assert layer.touched == [layer][0].touched;
      b' := Touch(b', layer.touched[j]);
    }
  }

  /** The bounds loop over all plugins and then all filters. */
  method GatherBounds(plugins: seq<Layer>, filters: seq<Layer>) returns (b: Bounds)
    ensures Smallest(b, plugins, filters)
  {
    b := Untouched;
    for k := 0 to |plugins|
      invariant Bounding(b, plugins[..k])
      invariant forall c :: Bounding(c, plugins) ==> Within(b, c)
    {
      forall c | Bounding(c, plugins) ensures Bounding(c, [plugins[k]]) {
      }
      b := UpdateBounds(plugins[k], b);
    }
    for k := 0 to |filters|
      invariant Bounding(b, plugins) && Bounding(b, filters[..k])
      invariant forall c :: Bounding(c, plugins) && Bounding(c, filters) ==> Within(b, c)
    {
      forall c | Bounding(c, filters) ensures Bounding(c, [filters[k]]) {
      }
      b := UpdateBounds(filters[k], b);
    }
  }

  /** The clamped lower and upper end of the window along one axis. */
  function WindowOf(a: Axis, low: real, high: real): (int, int)
    requires a.resolution > 0.0
  {
    (Max(0, a.EnforceBounds(low)), Min(a.size, a.EnforceBounds(high) + 1))
  }

  /** The cell of any coordinate between the bounds is in the window. */
  lemma WindowCovers(a: Axis, low: real, high: real, p: real)
    requires a.Valid() && low <= p <= high && a.ToMap(p).Some?
    ensures WindowOf(a, low, high).0 <= a.ToMap(p).value < WindowOf(a, low, high).1
  {
    EnforceBoundsAgrees(a, p);
    EnforceBoundsMonotone(a, low, p);
    EnforceBoundsMonotone(a, p, high);
    BelowTop(a, low, p);
  }

  /** Between ends on the map, the window holds exactly the cells that the bounds meet. */
  lemma WindowIsExact(a: Axis, low: real, high: real, x: nat)
    requires a.Valid() && a.origin <= low <= high < a.Edge(a.size) && x < a.size
    ensures WindowOf(a, low, high).0 <= x < WindowOf(a, low, high).1 <==> a.Edge(x) <= high && low < a.Edge(x + 1)
  {
    var m := CellAt(a, low);
    var n := CellAt(a, high);
    MeetsUpTo(a, high, n, x);
    MeetsFrom(a, low, m, x);
  }

  lemma CellAt(a: Axis, p: real) returns (m: nat)
    requires a.Valid() && a.origin <= p < a.Edge(a.size)
    ensures a.EnforceBounds(p) == m < a.size && a.Edge(m) <= p < a.Edge(m + 1)
  {
    ToMapDefined(a, p);
    m := a.ToMap(p).value;
    ToMapIsTheCell(a, p, m);
    EnforceBoundsAgrees(a, p);
  }

  lemma MeetsUpTo(a: Axis, high: real, n: nat, x: nat)
    requires a.Valid() && a.Edge(n) <= high < a.Edge(n + 1)
    ensures x <= n <==> a.Edge(x) <= high
  {
    Ordered(x as real, n as real, a.resolution);
    Ordered((n + 1) as real, x as real, a.resolution);
  }

  lemma MeetsFrom(a: Axis, low: real, m: nat, x: nat)
    requires a.Valid() && a.Edge(m) <= low < a.Edge(m + 1)
    ensures m <= x <==> low < a.Edge(x + 1)
  {
    Ordered((x + 1) as real, m as real, a.resolution);
    Ordered((m + 1) as real, (x + 1) as real, a.resolution);
  }

  lemma BelowTop(a: Axis, v: real, w: real)
    requires a.Valid() && v <= w && a.ToMap(w).Some?
    ensures a.EnforceBounds(v) != a.size
  {
    ToMapDefined(a, w);
    if v < a.origin {
      assert a.size > 0;
    } else {
      ToMapDefined(a, v);
      EnforceBoundsAgrees(a, v);
    }
  }

  // ---------------------------------------------------------------- merging a window

  /** `after` is `before` with the first `k` layers merged into every cell of the window. */
  ghost predicate FoldedWindow(before: seq<Cost>, after: seq<Cost>, w: nat, h: nat, layers: seq<Layer>, k: nat,
                               win: Window)
    requires k <= |layers|
  {
    && |after| == |before|
    && forall x: int, y: int :: 0 <= x < w && 0 <= y < h ==>
         CellOf(after, w, h, x, y, 0) ==
         if win.Contains(x, y) then Fold(layers, k, w, h, x, y, CellOf(before, w, h, x, y, 0))
         else CellOf(before, w, h, x, y, 0)
  }

  lemma FoldOneMore(before: seq<Cost>, middle: seq<Cost>, after: seq<Cost>, w: nat, h: nat, layers: seq<Layer>, k: nat,
                    win: Window)
    requires k < |layers| && FoldedWindow(before, middle, w, h, layers, k, win)
    requires Merged(middle, after, w, h, layers[k], win)
    ensures FoldedWindow(before, after, w, h, layers, k + 1, win)
  {
  }

  /** `updateCosts` of every layer in turn. */
  method MergeLayers(layers: seq<Layer>, master: Costmap2D, win: Window)
    requires master.Valid() && win.Fits(master.sizeX, master.sizeY)
    requires forall k :: 0 <= k < |layers| ==> |layers[k].costmap| == master.sizeX * master.sizeY
    modifies master.costmap
    ensures FoldedWindow(old(master.costmap[..]), master.costmap[..], master.sizeX, master.sizeY, layers, |layers|, win)
  {
    ghost var before := master.costmap[..];
    for k := 0 to |layers|
      invariant FoldedWindow(before, master.costmap[..], master.sizeX, master.sizeY, layers, k, win)
    {
      ghost var middle := master.costmap[..];
      UpdateCosts(layers[k], master, win);
      FoldOneMore(before, middle, master.costmap[..], master.sizeX, master.sizeY, layers, k, win);
    }
  }

  /** In the window the grid is the full merge of `layers` over `base`; outside it is what it was. */
  ghost predicate Recomputed(before: seq<Cost>, after: seq<Cost>, w: nat, h: nat, layers: seq<Layer>,
                             base: (int, int) -> Cost, win: Window) {
    && |after| == |before|
    && forall x: int, y: int :: 0 <= x < w && 0 <= y < h ==>
         CellOf(after, w, h, x, y, 0) ==
         if win.Contains(x, y) then FoldAll(layers, w, h, x, y, base(x, y)) else CellOf(before, w, h, x, y, 0)
  }

  /** The plugin pass: reset the window, then merge every plugin into it. */
  method PluginPass(plugins: seq<Layer>, master: Costmap2D, win: Window)
    requires master.Valid() && win.Fits(master.sizeX, master.sizeY)
    requires forall k :: 0 <= k < |plugins| ==> |plugins[k].costmap| == master.sizeX * master.sizeY
    modifies master.costmap
    ensures Recomputed(old(master.costmap[..]), master.costmap[..], master.sizeX, master.sizeY, plugins,
                       Constant(master.defaultValue), win)
  {
    master.ResetMapToValue(win.x0, win.y0, win.xn, win.yn, master.defaultValue);
    MergeLayers(plugins, master, win);
  }

  /** The filter pass: copy the window of the plugin grid, then merge every filter into the copy. */
  method FilterPass(filters: seq<Layer>, source: Costmap2D, master: Costmap2D, win: Window)
    requires master.Valid() && source.Valid() && source.costmap != master.costmap
    requires win.Fits(master.sizeX, master.sizeY)
    requires source.sizeX == master.sizeX && source.sizeY == master.sizeY
    requires forall k :: 0 <= k < |filters| ==> |filters[k].costmap| == master.sizeX * master.sizeY
    modifies master.costmap
    ensures Recomputed(old(master.costmap[..]), master.costmap[..], master.sizeX, master.sizeY, filters,
                       CellsOf(source.costmap[..], master.sizeX, master.sizeY), win)
  {
    var ok := master.CopyWindow(source, win.x0, win.y0, win.xn, win.yn, win.x0, win.y0);
    assert ok;
    MergeLayers(filters, master, win);
  }

  ghost function Constant(v: Cost): (int, int) -> Cost {
    (x: int, y: int) => v
  }

  ghost function CellsOf(g: seq<Cost>, w: nat, h: nat): (int, int) -> Cost {
    (x: int, y: int) => CellOf(g, w, h, x, y, 0)
  }

  // ---------------------------------------------------------------- keeping in sync

  /** Every cell of the grid holds `value` of its position. */
  ghost predicate Holds(g: seq<Cost>, w: nat, h: nat, value: (int, int) -> Cost) {
    && |g| == w * h
    && forall x: int, y: int :: 0 <= x < w && 0 <= y < h ==> CellOf(g, w, h, x, y, 0) == value(x, y)
  }

  ghost function PluginCells(plugins: seq<Layer>, w: nat, h: nat, default: Cost): (int, int) -> Cost {
    (x: int, y: int) => FoldAll(plugins, w, h, x, y, default)
  }

  ghost function FullCells(plugins: seq<Layer>, filters: seq<Layer>, w: nat, h: nat, default: Cost)
    : (int, int) -> Cost
  {
    (x: int, y: int) => FullCell(plugins, filters, w, h, x, y, default)
  }

  /** Outside the window no layer has changed. */
  ghost predicate UnchangedOutside(ls: seq<Layer>, ls': seq<Layer>, w: nat, h: nat, win: Window) {
    && |ls| == |ls'|
    && forall x: int, y: int :: 0 <= x < w && 0 <= y < h && !win.Contains(x, y) ==> AllSameAt(ls, ls', w, h, x, y)
  }

  lemma PluginsStaySynced(ls: seq<Layer>, ls': seq<Layer>, w: nat, h: nat, default: Cost, before: seq<Cost>,
                          after: seq<Cost>, win: Window)
    requires UnchangedOutside(ls, ls', w, h, win) && Holds(before, w, h, PluginCells(ls, w, h, default))
    requires Recomputed(before, after, w, h, ls', Constant(default), win)
    ensures Holds(after, w, h, PluginCells(ls', w, h, default))
  {
    forall x: int, y: int | 0 <= x < w && 0 <= y < h
      ensures CellOf(after, w, h, x, y, 0) == FoldAll(ls', w, h, x, y, default)
    {
      if !win.Contains(x, y) {
        FoldOfSame(ls, ls', |ls|, w, h, x, y, default);
        assert CellOf(before, w, h, x, y, 0) == PluginCells(ls, w, h, default)(x, y);
      }
    }
  }

  lemma FiltersStaySynced(ps: seq<Layer>, ps': seq<Layer>, fs: seq<Layer>, fs': seq<Layer>, w: nat, h: nat,
                          default: Cost, primary: seq<Cost>, before: seq<Cost>, after: seq<Cost>, win: Window)
    requires UnchangedOutside(ps, ps', w, h, win) && UnchangedOutside(fs, fs', w, h, win)
    requires Holds(before, w, h, FullCells(ps, fs, w, h, default))
    requires Holds(primary, w, h, PluginCells(ps', w, h, default))
    requires Recomputed(before, after, w, h, fs', CellsOf(primary, w, h), win)
    ensures Holds(after, w, h, FullCells(ps', fs', w, h, default))
  {
    forall x: int, y: int | 0 <= x < w && 0 <= y < h
      ensures CellOf(after, w, h, x, y, 0) == FullCell(ps', fs', w, h, x, y, default)
    {
      if win.Contains(x, y) {
        assert CellOf(primary, w, h, x, y, 0) == PluginCells(ps', w, h, default)(x, y);
      } else {
        FoldOfSame(ps, ps', |ps|, w, h, x, y, default);
        FoldOfSame(fs, fs', |fs|, w, h, x, y, FoldAll(ps, w, h, x, y, default));
        assert CellOf(before, w, h, x, y, 0) == FullCells(ps, fs, w, h, default)(x, y);
      }
    }
  }

  // ---------------------------------------------------------------- the layered costmap

  /** Some layer has touched a point in cell `(x, y)`. */
  ghost predicate TouchedCell(layers: seq<Layer>, ax: Axis, ay: Axis, x: int, y: int)
    requires ax.Valid() && ay.Valid()
  {
    exists k, j :: 0 <= k < |layers| && 0 <= j < |layers[k].touched| && InCell(ax, ay, layers[k].touched[j], x, y)
  }

  ghost predicate InCell(ax: Axis, ay: Axis, p: (real, real), x: int, y: int)
    requires ax.Valid() && ay.Valid()
  {
    x >= 0 && y >= 0 && ax.ToMap(p.0) == Option.Some(x) && ay.ToMap(p.1) == Option.Some(y)
  }

  /** The layers have touched every cell in which one of them differs from its earlier state. */
  ghost predicate ChangesTouched(ps: seq<Layer>, ps': seq<Layer>, fs: seq<Layer>, fs': seq<Layer>, ax: Axis, ay: Axis)
    requires ax.Valid() && ay.Valid()
  {
    && |ps| == |ps'| && |fs| == |fs'|
    && forall x: int, y: int :: 0 <= x < ax.size && 0 <= y < ay.size ==>
         || (AllSameAt(ps, ps', ax.size, ay.size, x, y) && AllSameAt(fs, fs', ax.size, ay.size, x, y))
         || TouchedCell(ps', ax, ay, x, y) || TouchedCell(fs', ax, ay, x, y)
  }

  /** A touched cell is in the window computed from bounds that hold every touched point. */
  lemma TouchedInWindow(layers: seq<Layer>, b: Bounds, ax: Axis, ay: Axis, x: int, y: int)
    requires ax.Valid() && ay.Valid() && Bounding(b, layers) && TouchedCell(layers, ax, ay, x, y)
    ensures b.Touched?
    ensures WindowOf(ax, b.minX, b.maxX).0 <= x < WindowOf(ax, b.minX, b.maxX).1
    ensures WindowOf(ay, b.minY, b.maxY).0 <= y < WindowOf(ay, b.minY, b.maxY).1
  {
    var k, j :| 0 <= k < |layers| && 0 <= j < |layers[k].touched| && InCell(ax, ay, layers[k].touched[j], x, y);
    var p := layers[k].touched[j];
    assert b.Contains(p);
    WindowCovers(ax, b.minX, b.maxX, p.0);
    WindowCovers(ay, b.minY, b.maxY, p.1);
  }

  /** The ends of the window; untouched bounds give the last cell as lower and the first as upper end. */
  function Ends(b: Bounds, ax: Axis, ay: Axis): (e: (int, int, int, int))
    requires ax.resolution > 0.0 && ay.resolution > 0.0
  {
    match b
    case Untouched => (Max(0, ax.size - 1), Max(0, ay.size - 1), Min(ax.size, 0 + 1), Min(ay.size, 0 + 1))
    case Touched(x, y, x', y') =>
      (WindowOf(ax, x, x').0, WindowOf(ay, y, y').0, WindowOf(ax, x, x').1, WindowOf(ay, y, y').1)
  }

  /**
   With nothing touched, the ends are the wrong way round, and the update is refused, exactly if some side has more than
   two cells.
   */
  lemma UntouchedIsRefused(ax: Axis, ay: Axis)
    requires ax.Valid() && ay.Valid()
    ensures var e := Ends(Untouched, ax, ay); e.2 < e.0 || e.3 < e.1 <==> ax.size > 2 || ay.size > 2
  {
  }

  /** If the window is refused, or does not hold a cell, the cell has not changed. */
  lemma OnlyWindowChanges(ps: seq<Layer>, ps': seq<Layer>, fs: seq<Layer>, fs': seq<Layer>, b: Bounds, ax: Axis,
                          ay: Axis, x: int, y: int)
    requires ax.Valid() && ay.Valid() && ChangesTouched(ps, ps', fs, fs', ax, ay)
    requires Bounding(b, ps') && Bounding(b, fs')
    requires 0 <= x < ax.size && 0 <= y < ay.size
    requires var e := Ends(b, ax, ay); !(e.0 <= x < e.2 && e.1 <= y < e.3)
    ensures AllSameAt(ps, ps', ax.size, ay.size, x, y) && AllSameAt(fs, fs', ax.size, ay.size, x, y)
  {
    if TouchedCell(ps', ax, ay, x, y) {
      TouchedInWindow(ps', b, ax, ay, x, y);
    }
    if TouchedCell(fs', ax, ay, x, y) {
      TouchedInWindow(fs', b, ax, ay, x, y);
    }
  }

  lemma OnlyEndsChange(ps: seq<Layer>, ps': seq<Layer>, fs: seq<Layer>, fs': seq<Layer>, b: Bounds, ax: Axis, ay: Axis,
                       e: (int, int, int, int))
    requires ax.Valid() && ay.Valid() && ChangesTouched(ps, ps', fs, fs', ax, ay)
    requires Bounding(b, ps') && Bounding(b, fs') && e == Ends(b, ax, ay)
    ensures forall x: int, y: int :: 0 <= x < ax.size && 0 <= y < ay.size && !(e.0 <= x < e.2 && e.1 <= y < e.3) ==>
      AllSameAt(ps, ps', ax.size, ay.size, x, y) && AllSameAt(fs, fs', ax.size, ay.size, x, y)
  {
    forall x: int, y: int | 0 <= x < ax.size && 0 <= y < ay.size && !(e.0 <= x < e.2 && e.1 <= y < e.3)
      ensures AllSameAt(ps, ps', ax.size, ay.size, x, y) && AllSameAt(fs, fs', ax.size, ay.size, x, y)
    {
      OnlyWindowChanges(ps, ps', fs, fs', b, ax, ay, x, y);
    }
  }

  /** The ends become the window, unless they are the wrong way round. */
  ghost predicate Taken(e: (int, int, int, int), before: Window, initialized: bool, after: Window, initialized': bool) {
    if e.2 < e.0 || e.3 < e.1 then after == before && initialized' == initialized
    else after.x0 == e.0 && after.y0 == e.1 && after.xn == e.2 && after.yn == e.3 && initialized'
  }

  class LayeredCostmap {
    var primary: Costmap2D
    var combined: Costmap2D
    var plugins: seq<Layer>
    var filters: seq<Layer>
    var bx0: nat
    var by0: nat
    var bxn: nat
    var byn: nat
    var initialized: bool

    ghost predicate Valid()
      reads this, primary, combined
    {
      && primary.Valid() && combined.Valid() && primary != combined && primary.costmap != combined.costmap
      && primary.sizeX == combined.sizeX && primary.sizeY == combined.sizeY
      && primary.defaultValue == combined.defaultValue
      && Window(bx0, by0, bxn, byn).Fits(combined.sizeX, combined.sizeY)
      && (forall k :: 0 <= k < |plugins| ==> |plugins[k].costmap| == combined.sizeX * combined.sizeY)
      && (forall k :: 0 <= k < |filters| ==> |filters[k].costmap| == combined.sizeX * combined.sizeY)
    }

    /** A map of the given size, with layers that have nothing to say yet. */
    constructor (sizeX: nat, sizeY: nat, resolution: real, originX: real, originY: real, trackUnknown: bool,
                 plugins: seq<Layer>, filters: seq<Layer>)
      requires resolution > 0.0
      requires forall k :: 0 <= k < |plugins| ==> |plugins[k].costmap| == sizeX * sizeY && Transparent(plugins[k])
      requires forall k :: 0 <= k < |filters| ==> |filters[k].costmap| == sizeX * sizeY && Transparent(filters[k])
      ensures Valid() && InSync(plugins, filters) && this.plugins == plugins && this.filters == filters
      ensures combined.sizeX == sizeX && combined.sizeY == sizeY && combined.resolution == resolution
      ensures combined.originX == originX && combined.originY == originY && !initialized
      ensures combined.defaultValue == if trackUnknown then 255 else 0
      ensures forall k :: 0 <= k < combined.costmap.Length ==> combined.costmap[k] == combined.defaultValue
    {
      var default: Cost := if trackUnknown then 255 else 0;
      primary := new Costmap2D(sizeX, sizeY, resolution, originX, originY, default);
      combined := new Costmap2D(sizeX, sizeY, resolution, originX, originY, default);
      this.plugins, this.filters := plugins, filters;
      bx0, by0, bxn, byn, initialized := 0, 0, 0, 0, false;
      new;
      FreshMapInSync(sizeX, sizeY, combined.costmap[..], plugins, filters, default);
      FreshMapInSync(sizeX, sizeY, primary.costmap[..], plugins, filters, default);
    }

    /** `getBounds`: the window of the last update that was not refused. */
    function Reported(): Window
      reads this
    {
      Window(bx0, by0, bxn, byn)
    }

    function AxisX(): Axis
      reads this, combined
    {
      Axis(combined.originX, combined.resolution, combined.sizeX)
    }

    function AxisY(): Axis
      reads this, combined
    {
      Axis(combined.originY, combined.resolution, combined.sizeY)
    }

    /** The master grid is the full recomputation from `ps` and `fs`, and the plugin grid that from `ps` alone. */
    ghost predicate InSync(ps: seq<Layer>, fs: seq<Layer>)
      reads this, primary, combined, primary.costmap, combined.costmap
    {
      var w, h, d := combined.sizeX, combined.sizeY, combined.defaultValue;
      && Holds(combined.costmap[..], w, h, FullCells(ps, fs, w, h, d))
      && (fs != [] ==> Holds(primary.costmap[..], w, h, PluginCells(ps, w, h, d)))
    }

    /**
     `updateMap`: if the grid was in sync with the layers as they were, and the layers have touched every cell they
     changed since, it is in sync with the layers as they are.
     */
    method UpdateMap(ghost ps: seq<Layer>, ghost fs: seq<Layer>) returns (ghost b: Bounds)
      requires Valid() && InSync(ps, fs)
      requires ChangesTouched(ps, plugins, fs, filters, AxisX(), AxisY())
      modifies this`bx0, this`by0, this`bxn, this`byn, this`initialized, primary.costmap, combined.costmap
      ensures Valid() && InSync(plugins, filters)
      ensures SameOutside(old(combined.costmap[..]), combined.costmap[..], combined.sizeX, combined.sizeY, Reported())
      ensures !initialized ==> combined.costmap[..] == old(combined.costmap[..])
      ensures |plugins| + |filters| > 0 ==>
        && Smallest(b, plugins, filters)
        && Taken(Ends(b, Axis(combined.originX, combined.resolution, combined.sizeX),
                      Axis(combined.originY, combined.resolution, combined.sizeY)),
                 old(Reported()), old(initialized), Reported(), initialized)
      ensures |plugins| + |filters| == 0 ==> Reported() == old(Reported()) && initialized == old(initialized)
    {
      ghost var ax, ay := AxisX(), AxisY();
      b := Untouched;
      if |plugins| == 0 && |filters| == 0 {
        return;
      }
      var bounds := GatherBounds(plugins, filters);
      b := bounds;
      var (x0, y0, xn, yn) := Ends(bounds, AxisX(), AxisY());
      OnlyEndsChange(ps, plugins, fs, filters, b, ax, ay, (x0, y0, xn, yn));
      UpdateBetween(x0, y0, xn, yn, ps, fs);
    }

    /** The rest of `updateMap`, given the ends of the window. */
    method UpdateBetween(x0: int, y0: int, xn: int, yn: int, ghost ps: seq<Layer>, ghost fs: seq<Layer>)
      requires Valid() && InSync(ps, fs) && |ps| == |plugins| && |fs| == |filters|
      requires 0 <= x0 && 0 <= y0 && xn <= combined.sizeX && yn <= combined.sizeY
      requires forall x: int, y: int ::
        0 <= x < combined.sizeX && 0 <= y < combined.sizeY && !(x0 <= x < xn && y0 <= y < yn) ==>
          && AllSameAt(ps, plugins, combined.sizeX, combined.sizeY, x, y)
          && AllSameAt(fs, filters, combined.sizeX, combined.sizeY, x, y)
      modifies this`bx0, this`by0, this`bxn, this`byn, this`initialized, primary.costmap, combined.costmap
      ensures Valid() && InSync(plugins, filters)
      ensures SameOutside(old(combined.costmap[..]), combined.costmap[..], combined.sizeX, combined.sizeY, Reported())
      ensures !initialized ==> combined.costmap[..] == old(combined.costmap[..])
      ensures Taken((x0, y0, xn, yn), old(Reported()), old(initialized), Reported(), initialized)
    {
      if xn < x0 || yn < y0 {
        NothingChanged(ps, fs);
        return;
      }
      Recompute(Window(x0, y0, xn, yn), ps, fs);
      bx0, bxn, by0, byn := x0, xn, y0, yn;
      initialized := true;
    }

    lemma NothingChanged(ps: seq<Layer>, fs: seq<Layer>)
      requires Valid() && InSync(ps, fs) && |ps| == |plugins| && |fs| == |filters|
      requires forall x: int, y: int :: 0 <= x < combined.sizeX && 0 <= y < combined.sizeY ==>
        && AllSameAt(ps, plugins, combined.sizeX, combined.sizeY, x, y)
        && AllSameAt(fs, filters, combined.sizeX, combined.sizeY, x, y)
      ensures InSync(plugins, filters)
    {
      var w, h, d := combined.sizeX, combined.sizeY, combined.defaultValue;
      forall x: int, y: int | 0 <= x < w && 0 <= y < h
        ensures FullCell(ps, fs, w, h, x, y, d) == FullCell(plugins, filters, w, h, x, y, d)
        ensures FoldAll(ps, w, h, x, y, d) == FoldAll(plugins, w, h, x, y, d)
      {
        FoldOfSame(ps, plugins, |ps|, w, h, x, y, d);
        FoldOfSame(fs, filters, |fs|, w, h, x, y, FoldAll(ps, w, h, x, y, d));
      }
    }

    /** The plugin pass, and with filters the copy and the filter pass, over one window. */
    method Recompute(win: Window, ghost ps: seq<Layer>, ghost fs: seq<Layer>)
      requires Valid() && InSync(ps, fs) && win.Fits(combined.sizeX, combined.sizeY)
      requires UnchangedOutside(ps, plugins, combined.sizeX, combined.sizeY, win)
      requires UnchangedOutside(fs, filters, combined.sizeX, combined.sizeY, win)
      modifies primary.costmap, combined.costmap
      ensures InSync(plugins, filters)
      ensures SameOutside(old(combined.costmap[..]), combined.costmap[..], combined.sizeX, combined.sizeY, win)
    {
      ghost var w, h, d := combined.sizeX, combined.sizeY, combined.defaultValue;
      ghost var before, primary0 := combined.costmap[..], primary.costmap[..];
      if |filters| == 0 {
        PluginPass(plugins, combined, win);
        NoFilters(ps, w, h, d, before);
        PluginsStaySynced(ps, plugins, w, h, d, before, combined.costmap[..], win);
        NoFilters(plugins, w, h, d, combined.costmap[..]);
      } else {
        PluginPass(plugins, primary, win);
        PluginsStaySynced(ps, plugins, w, h, d, primary0, primary.costmap[..], win);
        FilterPass(filters, primary, combined, win);
        FiltersStaySynced(ps, plugins, fs, filters, w, h, d, primary.costmap[..], before, combined.costmap[..], win);
      }
    }
  }

  lemma NoFilters(ps: seq<Layer>, w: nat, h: nat, default: Cost, g: seq<Cost>)
    ensures Holds(g, w, h, FullCells(ps, [], w, h, default)) <==> Holds(g, w, h, PluginCells(ps, w, h, default))
  {
  }

  /** The layers at one update: their contents, and the points touched since the update before. */
  datatype Snapshot = Snapshot(plugins: seq<Layer>, filters: seq<Layer>)

  /** Before each update the layers touched every cell they had changed since the one before. */
  ghost predicate ScriptTouched(states: seq<Snapshot>, ax: Axis, ay: Axis)
    requires ax.Valid() && ay.Valid()
  {
    forall k, n :: 0 <= k < |states| && n == k + 1 < |states| ==>
      ChangesTouched(states[k].plugins, states[n].plugins, states[k].filters, states[n].filters, ax, ay)
  }

  /** Over every run of updates the master grid equals a full recomputation from the current layers. */
  method Run(m: LayeredCostmap, script: seq<Snapshot>)
    requires m.Valid() && m.InSync(m.plugins, m.filters)
    requires forall k :: 0 <= k < |script| ==>
      && (forall i :: 0 <= i < |script[k].plugins| ==>
            |script[k].plugins[i].costmap| == m.combined.sizeX * m.combined.sizeY)
      && (forall i :: 0 <= i < |script[k].filters| ==>
            |script[k].filters[i].costmap| == m.combined.sizeX * m.combined.sizeY)
    requires ScriptTouched([Snapshot(m.plugins, m.filters)] + script, m.AxisX(), m.AxisY())
    modifies m, m.primary.costmap, m.combined.costmap
    ensures m.Valid() && m.InSync(m.plugins, m.filters)
    ensures m.primary == old(m.primary) && m.combined == old(m.combined)
    ensures script != [] ==>
      m.plugins == script[|script| - 1].plugins && m.filters == script[|script| - 1].filters
  {
    ghost var states := [Snapshot(m.plugins, m.filters)] + script;
    ghost var ax, ay := m.AxisX(), m.AxisY();
    for k := 0 to |script|
      invariant m.AxisX() == ax && m.AxisY() == ay
      invariant m.primary == old(m.primary) && m.combined == old(m.combined)
      invariant m.primary.costmap == old(m.primary.costmap) && m.combined.costmap == old(m.combined.costmap)
      invariant m.Valid() && m.InSync(m.plugins, m.filters)
      invariant m.plugins == states[k].plugins && m.filters == states[k].filters
    {
      ghost var ps, fs := m.plugins, m.filters;
      assert states[k + 1] == script[k];
      m.plugins, m.filters := script[k].plugins, script[k].filters;
      ghost var bounds := m.UpdateMap(ps, fs);
    }
  }

  /** A layer that leaves every master cell as it is. */
  ghost predicate Transparent(l: Layer) {
    || !l.enabled
    || (l.combination != TrueOverwrite && forall k :: 0 <= k < |l.costmap| ==> l.costmap[k] == NO_INFORMATION)
  }

  /** A freshly sized map is in sync with layers that have nothing to say yet. */
  lemma FreshMapInSync(w: nat, h: nat, g: seq<Cost>, ps: seq<Layer>, fs: seq<Layer>, default: Cost)
    requires |g| == w * h && forall k :: 0 <= k < |g| ==> g[k] == default
    requires forall k :: 0 <= k < |ps| ==> Transparent(ps[k])
    requires forall k :: 0 <= k < |fs| ==> Transparent(fs[k])
    ensures Holds(g, w, h, FullCells(ps, fs, w, h, default)) && Holds(g, w, h, PluginCells(ps, w, h, default))
  {
    forall x: int, y: int | 0 <= x < w && 0 <= y < h
      ensures CellOf(g, w, h, x, y, 0) == FullCell(ps, fs, w, h, x, y, default) == FoldAll(ps, w, h, x, y, default)
    {
      CellOfGrid(g, w, h, x, y, 0);
      TransparentFold(ps, |ps|, w, h, x, y, default);
      TransparentFold(fs, |fs|, w, h, x, y, default);
    }
  }

  lemma {:induction false} TransparentFold(ls: seq<Layer>, k: nat, w: nat, h: nat, x: int, y: int, base: Cost)
    requires k <= |ls| && forall i :: 0 <= i < |ls| ==> Transparent(ls[i])
    ensures Fold(ls, k, w, h, x, y, base) == base
  {
    if k > 0 {
      TransparentFold(ls, k - 1, w, h, x, y, base);
      assert Transparent(ls[k - 1]);
    }
  }
}
