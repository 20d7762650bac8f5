/** Row-major cell indexing and the cost values shared by every costmap module. */
module Grid {

  /** The value range of an unsigned char. */
  type Cost = c: int | 0 <= c < 256

  const NO_INFORMATION: Cost := 255
  const LETHAL_OBSTACLE: Cost := 254
  const INSCRIBED_INFLATED_OBSTACLE: Cost := 253
  const FREE_SPACE: Cost := 0

  datatype Option<T> = None | Some(value: T)

  function Min(a: int, b: int): int {
    if b < a then b else a
  }

  function Max(a: int, b: int): int {
    if a < b then b else a
  }

  function Abs(a: int): nat {
    if a < 0 then -a else a
  }

  /** `getIndex`: the flat index of cell `(x, y)` in rows of `w` cells. */
  function Index(x: nat, y: nat, w: nat): nat {
    y * w + x
  }

  lemma IndexBound(x: nat, y: nat, w: nat, h: nat)
    requires x < w && y < h
    ensures Index(x, y, w) < w * h
    ensures Index(x, y, w) + (w - x) <= w * h
  {
    assert (y + 1) * w <= h * w;
  }

  /** Stepping to the next cell of a row, or to the next row, moves the flat index by one or by a row. */
  lemma StepIndices(x: nat, y: nat, w: nat)
    ensures Index(x + 1, y, w) == Index(x, y, w) + 1
    ensures Index(x, y + 1, w) == Index(x, y, w) + w
  {
  }

  lemma RowsAreOrdered(x: nat, y: nat, x': nat, y': nat, w: nat)
    requires x < w && x' < w && y < y'
    ensures Index(x, y, w) < Index(x', y', w)
  {
    assert (y + 1) * w <= y' * w;
  }

  lemma IndexInjective(x: nat, y: nat, x': nat, y': nat, w: nat)
    requires x < w && x' < w
    ensures Index(x, y, w) == Index(x', y', w) <==> x == x' && y == y'
  {
    if y < y' {
      RowsAreOrdered(x, y, x', y', w);
    } else if y' < y {
      RowsAreOrdered(x', y', x, y, w);
    }
  }

  /** `indexToCells` undoes `getIndex` on every cell of the row. */
  lemma IndexToCells(x: nat, y: nat, w: nat)
    requires x < w
    ensures Index(x, y, w) / w == y
    ensures Index(x, y, w) - (Index(x, y, w) / w) * w == x
  {
    var i := Index(x, y, w);
    assert i == (i / w) * w + i % w;
    IndexInjective(i % w, i / w, x, y, w);
  }

  // ---------------------------------------------------------------- reading and writing by cell

  /** The value of cell `(x, y)` of a `w` by `h` grid, and `out` for every position outside the grid. */
  function CellOf<T>(g: seq<T>, w: nat, h: nat, x: int, y: int, out: T): T {
    if 0 <= x < w && 0 <= y < h && Index(x, y, w) < |g| then g[Index(x, y, w)] else out
  }

  lemma CellOfGrid<T>(g: seq<T>, w: nat, h: nat, x: nat, y: nat, out: T)
    requires |g| == w * h && x < w && y < h
    ensures Index(x, y, w) < |g| && CellOf(g, w, h, x, y, out) == g[Index(x, y, w)]
  {
    IndexBound(x, y, w, h);
  }

  function WithCell<T>(g: seq<T>, w: nat, h: nat, a: nat, b: nat, v: T): (g': seq<T>)
    requires |g| == w * h && a < w && b < h
    ensures |g'| == |g|
  {
    IndexBound(a, b, w, h);
    g[Index(a, b, w) := v]
  }

  lemma CellOfUpdated<T>(g: seq<T>, w: nat, h: nat, a: nat, b: nat, v: T, out: T, x: int, y: int)
    requires |g| == w * h && a < w && b < h
    ensures CellOf(WithCell(g, w, h, a, b, v), w, h, x, y, out) ==
            if x == a && y == b then v else CellOf(g, w, h, x, y, out)
  {
    IndexBound(a, b, w, h);
    if 0 <= x < w && 0 <= y < h {
      IndexInjective(x, y, a, b, w);
    }
  }

  lemma SetCell<T>(g: seq<T>, w: nat, h: nat, a: nat, b: nat, v: T, out: T)
    requires |g| == w * h && a < w && b < h
    ensures Index(a, b, w) < |g|
    ensures forall x: int, y: int ::
      CellOf(WithCell(g, w, h, a, b, v), w, h, x, y, out) == if x == a && y == b then v else CellOf(g, w, h, x, y, out)
  {
    IndexBound(a, b, w, h);
    forall x: int, y: int {
      CellOfUpdated(g, w, h, a, b, v, out, x, y);
    }
  }

  /** Two grids of the same size that agree on every cell are equal. */
  lemma SameCellsSameGrid<T(!new)>(g: seq<T>, g': seq<T>, w: nat, h: nat, out: T)
    requires |g| == |g'| == w * h
    requires forall x: int, y: int :: 0 <= x < w && 0 <= y < h ==>
      CellOf(g, w, h, x, y, out) == CellOf(g', w, h, x, y, out)
    ensures g == g'
  {
    forall k | 0 <= k < w * h ensures g[k] == g'[k] {
      var x, y := CellAtIndex(k, w, h);
      assert CellOf(g, w, h, x, y, out) == CellOf(g', w, h, x, y, out);
    }
  }

  lemma RowBound(y: int, h: int, w: nat)
    requires y * w < h * w
    ensures y < h
  {
  }

  lemma CellAtIndex(k: nat, w: nat, h: nat) returns (x: nat, y: nat)
    requires k < w * h
    ensures x < w && y < h && Index(x, y, w) == k
  {
    x, y := k % w, k / w;
    assert k == y * w + x;
    assert y * w < h * w;
    RowBound(y, h, w);
  }

  // ---------------------------------------------------------------- windows

  /** A half-open window of cells. */
  datatype Window = Window(x0: nat, y0: nat, xn: nat, yn: nat) {
    predicate Contains(x: int, y: int) {
      x0 <= x < xn && y0 <= y < yn
    }

    predicate Fits(w: nat, h: nat) {
      x0 <= xn <= w && y0 <= yn <= h
    }
  }

  /** No cell outside the window differs. */
  ghost predicate SameOutside(before: seq<Cost>, after: seq<Cost>, w: nat, h: nat, win: Window) {
    && |after| == |before|
    && forall x: int, y: int :: 0 <= x < w && 0 <= y < h && !win.Contains(x, y) ==>
         CellOf(after, w, h, x, y, 0) == CellOf(before, w, h, x, y, 0)
  }
}
