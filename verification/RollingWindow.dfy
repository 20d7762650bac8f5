/**
 What moving a window over a world of cells means, on plain sequences: rectangular copies, one
 shift, and runs of shifts.
 */
module RollingWindow {
  import opened Grid

  /** `static_cast<int>` of a real: truncation towards zero. */
  function Truncate(r: real): int {
    if r >= 0.0 then r.Floor else -(-r).Floor
  }

  /** The whole number of cells a requested origin lies away from the current one. */
  function CellShift(requested: real, origin: real, resolution: real): int
    requires resolution > 0.0
  {
    Truncate((requested - origin) / resolution)
  }

  /** The origin a request leads to: a whole number of cells from the current one. */
  function MovedOrigin(requested: real, origin: real, resolution: real): real
    requires resolution > 0.0
  {
    origin + CellShift(requested, origin, resolution) as real * resolution
  }

  // ---------------------------------------------------------------- rectangular copies

  /** `after` is `before` with a rectangle taken from `source`. */
  ghost predicate Copied<T(!new)>(source: seq<T>, sw: nat, sh: nat, before: seq<T>, after: seq<T>, w: nat, h: nat,
                                  sx: nat, sy: nat, dx: int, dy: int, rw: nat, rh: nat, out: T) {
    && |after| == |before|
    && forall x: int, y: int ::
         CellOf(after, w, h, x, y, out) ==
         if dx <= x < dx + rw && dy <= y < dy + rh then CellOf(source, sw, sh, x - dx + sx, y - dy + sy, out)
         else CellOf(before, w, h, x, y, out)
  }

  /** The copy when `rows` rows and `cols` cells of the next one are done. */
  ghost predicate CopiedRows<T(!new)>(source: seq<T>, sw: nat, sh: nat, before: seq<T>, after: seq<T>, w: nat, h: nat,
                                      sx: nat, sy: nat, dx: int, dy: int, rw: nat, rows: nat, cols: nat, out: T) {
    && |after| == |before|
    && forall x: int, y: int ::
         CellOf(after, w, h, x, y, out) ==
         if dx <= x < dx + rw && (dy <= y < dy + rows || (y == dy + rows && x < dx + cols))
         then CellOf(source, sw, sh, x - dx + sx, y - dy + sy, out)
         else CellOf(before, w, h, x, y, out)
  }

  lemma CopyOne<T(!new)>(source: seq<T>, sw: nat, sh: nat, before: seq<T>, after: seq<T>, w: nat, h: nat,
                         sx: nat, sy: nat, dx: nat, dy: nat, rw: nat, i: nat, k: nat, out: T)
    requires |source| == sw * sh && |before| == w * h
    requires sx + k < sw && sy + i < sh && dx + k < w && dy + i < h && k < rw
    requires CopiedRows(source, sw, sh, before, after, w, h, sx, sy, dx, dy, rw, i, k, out)
    ensures Index(sx + k, sy + i, sw) < |source| && Index(dx + k, dy + i, w) < |after|
    ensures CopiedRows(source, sw, sh, before, WithCell(after, w, h, dx + k, dy + i, source[Index(sx + k, sy + i, sw)]),
                       w, h, sx, sy, dx, dy, rw, i, k + 1, out)
  {
    CellOfGrid(source, sw, sh, sx + k, sy + i, out);
    SetCell(after, w, h, dx + k, dy + i, source[Index(sx + k, sy + i, sw)], out);
  }

  // ---------------------------------------------------------------- one shift

  /** Every cell holds what lay `(ox, oy)` away, or the default if that was outside the grid. */
  ghost predicate Shifted<T(!new)>(w: nat, h: nat, before: seq<T>, after: seq<T>, ox: int, oy: int, blank: T) {
    && |after| == |before| == w * h
    && forall x: int, y: int :: 0 <= x < w && 0 <= y < h ==>
         CellOf(after, w, h, x, y, blank) == CellOf(before, w, h, x + ox, y + oy, blank)
  }

  /** The rectangle two windows have in common, in cells of the first. */
  datatype Overlap = Overlap(lowX: nat, lowY: nat, sizeX: nat, sizeY: nat)

  /** The overlap of a `w` by `h` window with itself moved by `(ox, oy)`; empty when they do not meet. */
  function OverlapOf(w: nat, h: nat, ox: int, oy: int): Overlap {
    var lowerLeftX, lowerLeftY := Min(Max(ox, 0), w), Min(Max(oy, 0), h);
    var upperRightX, upperRightY := Min(Max(ox + w, 0), w), Min(Max(oy + h, 0), h);
    Overlap(lowerLeftX, lowerLeftY, upperRightX - lowerLeftX, upperRightY - lowerLeftY)
  }

  /** `local` holds the cells of the overlap. */
  ghost predicate Saved<T(!new)>(w: nat, h: nat, before: seq<T>, local: seq<T>, o: Overlap, blank: T) {
    && |local| == o.sizeX * o.sizeY
    && forall x: int, y: int :: 0 <= x < o.sizeX && 0 <= y < o.sizeY ==>
         CellOf(local, o.sizeX, o.sizeY, x, y, blank) == CellOf(before, w, h, x + o.lowX, y + o.lowY, blank)
  }

  /**
   Copying the overlap out, clearing the grid and copying the overlap back in shifts the grid, for every
   shift: when the windows do not overlap nothing is copied, whatever the start cell.
   */
  lemma ShiftByCopies<T(!new)>(w: nat, h: nat, before: seq<T>, local: seq<T>, cleared: seq<T>, after: seq<T>,
                               ox: int, oy: int, o: Overlap, blank: T)
    requires |before| == |cleared| == w * h && o == OverlapOf(w, h, ox, oy)
    requires Saved(w, h, before, local, o, blank)
    requires forall k :: 0 <= k < |cleared| ==> cleared[k] == blank
    requires Copied(local, o.sizeX, o.sizeY, cleared, after, w, h, 0, 0, o.lowX - ox, o.lowY - oy, o.sizeX, o.sizeY,
                    blank)
    ensures Shifted(w, h, before, after, ox, oy, blank)
  {
  }

  /** Two grids shifted together keep every relation between their cells that holds of a cleared pair. */
  lemma ShiftKeepsRelation<T(!new), U(!new)>(w: nat, h: nat, g: seq<T>, g': seq<T>, v: seq<U>, v': seq<U>, ox: int,
                                             oy: int, blankT: T, blankU: U, related: (T, U) -> bool)
    requires Shifted(w, h, g, g', ox, oy, blankT) && Shifted(w, h, v, v', ox, oy, blankU)
    requires related(blankT, blankU)
    requires forall k :: 0 <= k < w * h ==> related(g[k], v[k])
    ensures forall k :: 0 <= k < w * h ==> related(g'[k], v'[k])
  {
    forall k | 0 <= k < w * h ensures related(g'[k], v'[k]) {
      var x, y := CellAtIndex(k, w, h);
      assert CellOf(g', w, h, x, y, blankT) == CellOf(g, w, h, x + ox, y + oy, blankT);
      assert CellOf(v', w, h, x, y, blankU) == CellOf(v, w, h, x + ox, y + oy, blankU);
    }
  }

  // ---------------------------------------------------------------- runs of shifts

  /** The cell offset of the window after each of the first `k` shifts, along one axis. */
  function Position(start: int, shifts: seq<int>, k: nat): int
    requires k <= |shifts|
  {
    if k == 0 then start else Position(start, shifts, k - 1) + shifts[k - 1]
  }

  /** World cell `(wx, wy)` lies in the window at offset `(px, py)`. */
  predicate Covers(w: nat, h: nat, px: int, py: int, wx: int, wy: int) {
    px <= wx < px + w && py <= wy < py + h
  }

  /** A run of shifts with no writes in between: `grids[k]` is the grid after `k` of them. */
  ghost predicate ShiftRun<T(!new)>(w: nat, h: nat, grids: seq<seq<T>>, xs: seq<int>, ys: seq<int>, blank: T) {
    && |xs| == |ys| && |grids| == |xs| + 1
    && forall k :: 0 <= k < |xs| ==> Shifted(w, h, grids[k], grids[k + 1], xs[k], ys[k], blank)
  }

  /** World cell `(wx, wy)` stayed in view: it lay inside every window of the run up to the `n`-th. */
  ghost predicate AlwaysCovered(w: nat, h: nat, px: int, py: int, xs: seq<int>, ys: seq<int>, n: nat, wx: int, wy: int)
    requires |xs| == |ys| && n <= |xs|
  {
    forall k :: 0 <= k <= n ==> Covers(w, h, Position(px, xs, k), Position(py, ys, k), wx, wy)
  }

  /**
   After any run of shifts a cell in view holds its first value exactly when its world position lay in every
   window of the run, and the default otherwise.
   */
  lemma {:induction false} RunKeepsExactlyTheCovered<T(!new)>(w: nat, h: nat, grids: seq<seq<T>>, xs: seq<int>,
                                                              ys: seq<int>, blank: T, px: int, py: int, n: nat,
                                                              wx: int, wy: int)
    requires ShiftRun(w, h, grids, xs, ys, blank) && n <= |xs|
    requires Covers(w, h, Position(px, xs, n), Position(py, ys, n), wx, wy)
    ensures CellOf(grids[n], w, h, wx - Position(px, xs, n), wy - Position(py, ys, n), blank) ==
            if AlwaysCovered(w, h, px, py, xs, ys, n, wx, wy) then CellOf(grids[0], w, h, wx - px, wy - py, blank)
            else blank
  {
    if n > 0 {
      var ax, ay := Position(px, xs, n - 1), Position(py, ys, n - 1);
      assert Shifted(w, h, grids[n - 1], grids[n], xs[n - 1], ys[n - 1], blank);
      assert CellOf(grids[n], w, h, wx - Position(px, xs, n), wy - Position(py, ys, n), blank)
          == CellOf(grids[n - 1], w, h, wx - ax, wy - ay, blank);
      if Covers(w, h, ax, ay, wx, wy) {
        RunKeepsExactlyTheCovered(w, h, grids, xs, ys, blank, px, py, n - 1, wx, wy);
      }
    }
  }

  /** World cell `(wx, wy)`, where it is in view after `n` shifts: kept if it stayed in view, and else the default. */
  ghost predicate KeptIfCovered<T(!new)>(w: nat, h: nat, first: seq<T>, last: seq<T>, xs: seq<int>, ys: seq<int>,
                                         blank: T, px: int, py: int, n: nat, wx: int, wy: int)
    requires |xs| == |ys| && n <= |xs|
  {
    Covers(w, h, Position(px, xs, n), Position(py, ys, n), wx, wy) ==>
      CellOf(last, w, h, wx - Position(px, xs, n), wy - Position(py, ys, n), blank) ==
      if AlwaysCovered(w, h, px, py, xs, ys, n, wx, wy) then CellOf(first, w, h, wx - px, wy - py, blank) else blank
  }

  /** What a run of shifts leaves of the first grid. */
  ghost predicate KeepsExactlyTheCovered<T(!new)>(w: nat, h: nat, first: seq<T>, last: seq<T>, xs: seq<int>,
                                                  ys: seq<int>, blank: T)
    requires |xs| == |ys|
  {
    forall wx: int, wy: int :: KeptIfCovered(w, h, first, last, xs, ys, blank, 0, 0, |xs|, wx, wy)
  }

  lemma RunKeepsThem<T(!new)>(w: nat, h: nat, grids: seq<seq<T>>, xs: seq<int>, ys: seq<int>, blank: T)
    requires ShiftRun(w, h, grids, xs, ys, blank)
    ensures KeepsExactlyTheCovered(w, h, grids[0], grids[|xs|], xs, ys, blank)
  {
    forall wx: int, wy: int ensures KeptIfCovered(w, h, grids[0], grids[|xs|], xs, ys, blank, 0, 0, |xs|, wx, wy) {
      if Covers(w, h, Position(0, xs, |xs|), Position(0, ys, |xs|), wx, wy) {
        RunKeepsExactlyTheCovered(w, h, grids, xs, ys, blank, 0, 0, |xs|, wx, wy);
      }
    }
  }

  /** The origin after the first `k` requests, along one axis. */
  function OriginAfter(requests: seq<real>, start: real, resolution: real, k: nat): real
    requires resolution > 0.0 && k <= |requests|
  {
    if k == 0 then start else MovedOrigin(requests[k - 1], OriginAfter(requests, start, resolution, k - 1), resolution)
  }

  /** The shifts the first `k` requests lead to, along one axis. */
  function ShiftsOf(requests: seq<real>, start: real, resolution: real, k: nat): (xs: seq<int>)
    requires resolution > 0.0 && k <= |requests|
    ensures |xs| == k
  {
    if k == 0 then []
    else
      ShiftsOf(requests, start, resolution, k - 1)
      + [CellShift(requests[k - 1], OriginAfter(requests, start, resolution, k - 1), resolution)]
  }

  /** One more shift at the end of a run. */
  lemma ExtendRun<T(!new)>(w: nat, h: nat, grids: seq<seq<T>>, xs: seq<int>, ys: seq<int>, blank: T, next: seq<T>,
                           ox: int, oy: int)
    requires ShiftRun(w, h, grids, xs, ys, blank)
    requires Shifted(w, h, grids[|xs|], next, ox, oy, blank)
    ensures ShiftRun(w, h, grids + [next], xs + [ox], ys + [oy], blank)
  {
  }

  lemma {:induction false} PositionOfPrefix(start: int, shifts: seq<int>, more: seq<int>, k: nat)
    requires k <= |shifts|
    ensures Position(start, shifts + more, k) == Position(start, shifts, k)
  {
    if k > 0 {
      PositionOfPrefix(start, shifts, more, k - 1);
    }
  }

  // ---------------------------------------------------------------- origins

  lemma TruncateBounds(r: real)
    ensures -1.0 < r - Truncate(r) as real < 1.0
    ensures r >= 0.0 ==> 0.0 <= Truncate(r) as real <= r
    ensures r <= 0.0 ==> r <= Truncate(r) as real <= 0.0
  {
  }

  /** The new origin is on the grid of the old one, less than a cell from the request, and never past it. */
  lemma OriginFollowsRequest(requested: real, origin: real, resolution: real)
    requires resolution > 0.0
    ensures var moved := MovedOrigin(requested, origin, resolution);
      && -resolution < requested - moved < resolution
      && (origin <= requested ==> origin <= moved <= requested)
      && (requested <= origin ==> requested <= moved <= origin)
  {
    var q := (requested - origin) / resolution;
    var n := Truncate(q) as real;
    TruncateBounds(q);
    var whole, rest := Split(q, n, resolution);
    assert requested - origin == q * resolution;
    assert (origin <= requested ==> q >= 0.0) && (requested <= origin ==> q <= 0.0);
  }

  /** `q * c` as its whole cells and a rest of less than one cell on the same side. */
  lemma Split(q: real, n: real, c: real) returns (whole: real, rest: real)
    requires c > 0.0 && -1.0 < q - n < 1.0
    ensures q * c == whole + rest && whole == n * c && -c < rest < c
    ensures (0.0 <= n ==> whole >= 0.0) && (n <= 0.0 ==> whole <= 0.0)
    ensures (n <= q ==> rest >= 0.0) && (q <= n ==> rest <= 0.0)
  {
    whole := n * c;
    rest := Product(q - n, c);
    assert q * c == n * c + (q - n) * c;
  }

  lemma Product(d: real, c: real) returns (p: real)
    requires c > 0.0 && -1.0 < d < 1.0
    ensures p == d * c && -c < p < c && (d >= 0.0 ==> p >= 0.0) && (d <= 0.0 ==> p <= 0.0)
  {
    p := d * c;
  }
}
