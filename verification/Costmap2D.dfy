/**
 The cost grid (`Costmap2D`): a row-major buffer with a size, a resolution and an origin, the
 rectangular copy and reset that every update is made of, and the rolling window.
 */
module Costmap {
  import opened Grid
  import opened RollingWindow

  /**
   `copyMapRegion`: copy a rectangle of one row-major buffer into another, row by row. An empty rectangle may
   start anywhere, since nothing is read or written then.
   */
  method CopyMapRegion<T(!new)>(source: array<T>, sx: nat, sy: nat, sourceW: nat, dest: array<T>, dx: int, dy: int,
                                destW: nat, regionW: nat, regionH: nat, ghost sourceH: nat, ghost destH: nat,
                                ghost out: T)
    requires source != dest && source.Length == sourceW * sourceH && dest.Length == destW * destH
    requires regionW > 0 && regionH > 0 ==>
      && sx + regionW <= sourceW && sy + regionH <= sourceH
      && 0 <= dx <= dx + regionW <= destW && 0 <= dy <= dy + regionH <= destH
    modifies dest
    ensures Copied(source[..], sourceW, sourceH, old(dest[..]), dest[..], destW, destH, sx, sy, dx, dy, regionW,
                   regionH, out)
  {
    ghost var before, src := dest[..], source[..];
    for i := 0 to regionH
      invariant source[..] == src
      invariant CopiedRows(src, sourceW, sourceH, before, dest[..], destW, destH, sx, sy, dx, dy, regionW, i, 0, out)
    {
      for k := 0 to regionW
        invariant source[..] == src
        invariant CopiedRows(src, sourceW, sourceH, before, dest[..], destW, destH, sx, sy, dx, dy, regionW, i, k, out)
      {
        ghost var g := dest[..];
        CopyOne(src, sourceW, sourceH, before, g, destW, destH, sx, sy, dx, dy, regionW, i, k, out);
        dest[Index(dx + k, dy + i, destW)] := source[Index(sx + k, sy + i, sourceW)];
        assert dest[..] == WithCell(g, destW, destH, dx + k, dy + i, src[Index(sx + k, sy + i, sourceW)]);
      }
    }
  }

  /** The overlap of a window with its new place, copied to a buffer of its own. */
  method SaveOverlap<T(!new)>(grid: array<T>, w: nat, ghost h: nat, o: Overlap, fill: T, ghost blank: T)
    returns (local: array<T>)
    requires grid.Length == w * h
    requires o.sizeX > 0 && o.sizeY > 0 ==> o.lowX + o.sizeX <= w && o.lowY + o.sizeY <= h
    ensures fresh(local) && Saved(w, h, grid[..], local[..], o, blank)
  {
    local := new T[o.sizeX * o.sizeY](_ => fill);
    CopyMapRegion(grid, o.lowX, o.lowY, w, local, 0, 0, o.sizeX, o.sizeX, o.sizeY, h, o.sizeY, blank);
  }

  /** The saved overlap copied to its new place in a cleared grid. */
  method RestoreOverlap<T(!new)>(grid: array<T>, local: array<T>, w: nat, ghost h: nat, ox: int, oy: int, o: Overlap,
                                 ghost before: seq<T>, ghost blank: T)
    requires grid != local && grid.Length == |before| == w * h && o == OverlapOf(w, h, ox, oy)
    requires Saved(w, h, before, local[..], o, blank)
    requires forall k :: 0 <= k < grid.Length ==> grid[k] == blank
    modifies grid
    ensures Shifted(w, h, before, grid[..], ox, oy, blank)
  {
    ghost var cleared, saved := grid[..], local[..];
    CopyMapRegion(local, 0, 0, o.sizeX, grid, o.lowX - ox, o.lowY - oy, w, o.sizeX, o.sizeY, o.sizeY, h, blank);
    ShiftByCopies(w, h, before, saved, cleared, grid[..], ox, oy, o, blank);
  }

  class Costmap2D {
    var sizeX: nat
    var sizeY: nat
    var resolution: real
    var originX: real
    var originY: real
    var costmap: array<Cost>
    var defaultValue: Cost

    ghost predicate Valid()
      reads this
    {
      costmap.Length == sizeX * sizeY && resolution > 0.0
    }

    constructor (sizeX: nat, sizeY: nat, resolution: real, originX: real, originY: real, defaultValue: Cost)
      requires resolution > 0.0
      ensures Valid() && fresh(costmap)
      ensures this.sizeX == sizeX && this.sizeY == sizeY && this.resolution == resolution
      ensures this.originX == originX && this.originY == originY && this.defaultValue == defaultValue
      ensures forall k :: 0 <= k < costmap.Length ==> costmap[k] == defaultValue
    {
      this.sizeX, this.sizeY, this.resolution := sizeX, sizeY, resolution;
      this.originX, this.originY, this.defaultValue := originX, originY, defaultValue;
      costmap := new Cost[sizeX * sizeY](_ => defaultValue);
    }

    /** `resetMaps`. */
    method ResetMaps()
      requires Valid()
      modifies costmap
      ensures forall k :: 0 <= k < costmap.Length ==> costmap[k] == defaultValue
    {
      for k := 0 to costmap.Length
        invariant forall j :: 0 <= j < k ==> costmap[j] == defaultValue
      {
        costmap[k] := defaultValue;
      }
    }

    /** `updateOrigin`: move the window by whole cells and keep what both windows cover. */
    method UpdateOrigin(newOriginX: real, newOriginY: real)
      requires Valid()
      modifies this`originX, this`originY, costmap
      ensures Valid()
      ensures originX == MovedOrigin(newOriginX, old(originX), resolution)
      ensures originY == MovedOrigin(newOriginY, old(originY), resolution)
      ensures Shifted(sizeX, sizeY, old(costmap[..]), costmap[..], CellShift(newOriginX, old(originX), resolution),
                      CellShift(newOriginY, old(originY), resolution), defaultValue)
    {
      var cellOx, cellOy := CellShift(newOriginX, originX, resolution), CellShift(newOriginY, originY, resolution);
      var newGridOx := originX + cellOx as real * resolution;
      var newGridOy := originY + cellOy as real * resolution;
      ShiftCells(cellOx, cellOy);
      originX, originY := newGridOx, newGridOy;
    }

    /** The buffer part of `updateOrigin`: copy the overlap out, reset, copy it back to its new place. */
    method ShiftCells(cellOx: int, cellOy: int)
      requires Valid()
      modifies costmap
      ensures Shifted(sizeX, sizeY, old(costmap[..]), costmap[..], cellOx, cellOy, defaultValue)
    {
      var overlap := OverlapOf(sizeX, sizeY, cellOx, cellOy);
      var localMap := SaveOverlap(costmap, sizeX, sizeY, overlap, 0, defaultValue);
      ResetMaps();
      RestoreOverlap(costmap, localMap, sizeX, sizeY, cellOx, cellOy, overlap, old(costmap[..]), defaultValue);
    }

    /** `resetMapToValue`: overwrite the window `[x0, xn) x [y0, yn)`. */
    method ResetMapToValue(x0: nat, y0: nat, xn: nat, yn: nat, value: Cost)
      requires Valid() && x0 <= xn <= sizeX && yn <= sizeY
      modifies costmap
      ensures Filled(old(costmap[..]), costmap[..], sizeX, sizeY, x0, y0, xn, yn, value)
    {
      ghost var before := costmap[..];
      var y := y0;
      while y < yn
        invariant y0 <= y
        invariant FilledRows(before, costmap[..], sizeX, sizeY, x0, y0, xn, yn, value, y, x0)
      {
        var x := x0;
        while x < xn
          invariant x0 <= x <= xn
          invariant FilledRows(before, costmap[..], sizeX, sizeY, x0, y0, xn, yn, value, y, x)
        {
          ghost var g := costmap[..];
          FillOne(before, g, sizeX, sizeY, x0, y0, xn, yn, value, y, x);
          costmap[Index(x, y, sizeX)] := value;
          assert costmap[..] == WithCell(g, sizeX, sizeY, x, y, value);
          x := x + 1;
        }
        y := y + 1;
      }
    }

    /** `copyWindow`: refuse a window that leaves either grid, copy it otherwise. */
    method CopyWindow(source: Costmap2D, sx0: nat, sy0: nat, sxn: nat, syn: nat, dx0: nat, dy0: nat) returns (ok: bool)
      requires Valid() && source.Valid() && source.costmap != costmap
      requires sx0 <= sxn && sy0 <= syn
      modifies costmap
      ensures ok <==>
              sxn <= source.sizeX && syn <= source.sizeY && dx0 + (sxn - sx0) <= sizeX && dy0 + (syn - sy0) <= sizeY
      ensures !ok ==> costmap[..] == old(costmap[..])
      ensures ok ==>
        Copied(source.costmap[..], source.sizeX, source.sizeY, old(costmap[..]), costmap[..], sizeX, sizeY,
               sx0, sy0, dx0, dy0, sxn - sx0, syn - sy0, 0)
    {
      var szX, szY := sxn - sx0, syn - sy0;
      if sxn > source.sizeX || syn > source.sizeY {
        return false;
      }
      if dx0 + szX > sizeX || dy0 + szY > sizeY {
        return false;
      }
      CopyMapRegion(source.costmap, sx0, sy0, source.sizeX, costmap, dx0, dy0, sizeX, szX, szY, source.sizeY, sizeY, 0);
      ok := true;
    }
  }

  /** `after` is `before` with the window `[x0, xn) x [y0, yn)` set to `value`. */
  ghost predicate Filled(before: seq<Cost>, after: seq<Cost>, w: nat, h: nat, x0: nat, y0: nat, xn: nat, yn: nat,
                         value: Cost) {
    && |after| == |before|
    && forall x: int, y: int :: 0 <= x < w && 0 <= y < h ==>
         CellOf(after, w, h, x, y, 0) == if x0 <= x < xn && y0 <= y < yn then value else CellOf(before, w, h, x, y, 0)
  }

  ghost predicate FilledRows(before: seq<Cost>, after: seq<Cost>, w: nat, h: nat, x0: nat, y0: nat, xn: nat, yn: nat,
                             value: Cost, row: nat, col: nat) {
    && |after| == |before|
    && forall x: int, y: int :: 0 <= x < w && 0 <= y < h ==>
         CellOf(after, w, h, x, y, 0) ==
         if x0 <= x < xn && y0 <= y < yn && (y < row || (y == row && x < col)) then value
         else CellOf(before, w, h, x, y, 0)
  }

  lemma FillOne(before: seq<Cost>, after: seq<Cost>, w: nat, h: nat, x0: nat, y0: nat, xn: nat, yn: nat, value: Cost,
                row: nat, col: nat)
    requires |before| == w * h && x0 <= col < xn <= w && y0 <= row < yn <= h
    requires FilledRows(before, after, w, h, x0, y0, xn, yn, value, row, col)
    ensures Index(col, row, w) < |after|
    ensures FilledRows(before, WithCell(after, w, h, col, row, value), w, h, x0, y0, xn, yn, value, row, col + 1)
  {
    SetCell(after, w, h, col, row, value, 0);
  }

  /**
   A run of `updateOrigin` calls with nothing written in between, for any requests whatever. The window stays on the
   grid of its first origin and within a cell of the last request, and a cell in view holds its first value exactly when
   its world position lay in every window of the run, and the default otherwise.
   */
  method Roll(window: Costmap2D, toX: seq<real>, toY: seq<real>)
    requires window.Valid() && |toX| == |toY|
    modifies window`originX, window`originY, window.costmap
    ensures window.Valid()
    ensures window.originX == OriginAfter(toX, old(window.originX), window.resolution, |toX|)
    ensures window.originY == OriginAfter(toY, old(window.originY), window.resolution, |toY|)
    ensures KeepsExactlyTheCovered(window.sizeX, window.sizeY, old(window.costmap[..]), window.costmap[..],
                                   ShiftsOf(toX, old(window.originX), window.resolution, |toX|),
                                   ShiftsOf(toY, old(window.originY), window.resolution, |toY|), window.defaultValue)
    ensures OnGrid(window.originX, old(window.originX),
                   Position(0, ShiftsOf(toX, old(window.originX), window.resolution, |toX|), |toX|), window.resolution)
    ensures OnGrid(window.originY, old(window.originY),
                   Position(0, ShiftsOf(toY, old(window.originY), window.resolution, |toY|), |toY|), window.resolution)
    ensures toX != [] ==> Near(toX[|toX| - 1], window.originX, window.resolution)
    ensures toY != [] ==> Near(toY[|toY| - 1], window.originY, window.resolution)
  {
    ghost var startX, startY, grids := window.originX, window.originY, [window.costmap[..]];
    for k := 0 to |toX|
      invariant window.Valid()
      invariant window.originX == OriginAfter(toX, startX, window.resolution, k)
      invariant window.originY == OriginAfter(toY, startY, window.resolution, k)
      invariant ShiftRun(window.sizeX, window.sizeY, grids, ShiftsOf(toX, startX, window.resolution, k),
                         ShiftsOf(toY, startY, window.resolution, k), window.defaultValue)
      invariant grids[0] == old(window.costmap[..]) && grids[k] == window.costmap[..]
    {
      ghost var xs, ys := ShiftsOf(toX, startX, window.resolution, k), ShiftsOf(toY, startY, window.resolution, k);
      ghost var ox := CellShift(toX[k], window.originX, window.resolution);
      ghost var oy := CellShift(toY[k], window.originY, window.resolution);
      window.UpdateOrigin(toX[k], toY[k]);
      ExtendRun(window.sizeX, window.sizeY, grids, xs, ys, window.defaultValue, window.costmap[..], ox, oy);
      grids := grids + [window.costmap[..]];
    }
    RunKeepsThem(window.sizeX, window.sizeY, grids, ShiftsOf(toX, startX, window.resolution, |toX|),
                 ShiftsOf(toY, startY, window.resolution, |toY|), window.defaultValue);
    OriginStaysOnGrid(toX, startX, window.resolution);
    OriginStaysOnGrid(toY, startY, window.resolution);
  }

  /** The origin lies `n` whole cells from `start`. */
  ghost predicate OnGrid(origin: real, start: real, n: int, resolution: real) {
    origin == start + n as real * resolution
  }

  /** The origin lies less than one cell from the request. */
  ghost predicate Near(requested: real, origin: real, resolution: real) {
    -resolution < requested - origin < resolution
  }

  lemma {:induction false} OriginOnGrid(requests: seq<real>, start: real, resolution: real, k: nat)
    returns (n: int, origin: real)
    requires resolution > 0.0 && k <= |requests|
    ensures origin == OriginAfter(requests, start, resolution, k) && OnGrid(origin, start, n, resolution)
    ensures n == Position(0, ShiftsOf(requests, start, resolution, k), k)
    ensures k > 0 ==> Near(requests[k - 1], origin, resolution)
  {
    if k == 0 {
      n, origin := 0, start;
    } else {
      var xs := ShiftsOf(requests, start, resolution, k - 1);
      n, origin := OriginOnGrid(requests, start, resolution, k - 1);
      PositionOfPrefix(0, xs, [CellShift(requests[k - 1], origin, resolution)], k - 1);
      n, origin := StepOnGrid(requests[k - 1], origin, start, n, resolution);
    }
  }

  lemma OriginStaysOnGrid(requests: seq<real>, start: real, resolution: real)
    requires resolution > 0.0
    ensures var origin := OriginAfter(requests, start, resolution, |requests|);
      && OnGrid(origin, start, Position(0, ShiftsOf(requests, start, resolution, |requests|), |requests|), resolution)
      && (requests != [] ==> Near(requests[|requests| - 1], origin, resolution))
  {
    var n, origin := OriginOnGrid(requests, start, resolution, |requests|);
  }

  lemma StepOnGrid(requested: real, origin: real, start: real, n: int, resolution: real) returns (n': int, moved: real)
    requires resolution > 0.0 && OnGrid(origin, start, n, resolution)
    ensures n' == n + CellShift(requested, origin, resolution)
    ensures moved == MovedOrigin(requested, origin, resolution) && OnGrid(moved, start, n', resolution)
    ensures Near(requested, moved, resolution)
  {
    n', moved := n + CellShift(requested, origin, resolution), MovedOrigin(requested, origin, resolution);
    OriginFollowsRequest(requested, origin, resolution);
    Add(n, CellShift(requested, origin, resolution), resolution);
  }

  lemma Add(a: int, b: int, c: real)
    ensures a as real * c + b as real * c == (a + b) as real * c
  {
    assert (a + b) as real == a as real + b as real;
  }
}
