/** How one layer is merged into the master grid (`CostmapLayer`), cell by cell and in place over a window. */
module CostmapLayers {
  import opened Grid
  import opened Costmap

  /** The four ways of `updateWith...` a layer can be merged. */
  datatype Combination = Overwrite | TrueOverwrite | Maximum | MaximumWithoutUnknownOverwrite

  /** The contents of a layer at one moment: its own grid, and the points it has touched since the last update. */
  datatype Layer = Layer(enabled: bool, combination: Combination, costmap: seq<Cost>, touched: seq<(real, real)>)

  /** What the master cell becomes: the layer's own cost, the larger of the two, or what it was. */
  function Merge(combination: Combination, own: Cost, master: Cost): Cost {
    match combination
    case TrueOverwrite => own
    case Overwrite => if own != NO_INFORMATION then own else master
    case Maximum =>
      if own == NO_INFORMATION then master
      else if master == NO_INFORMATION || master < own then own else master
    case MaximumWithoutUnknownOverwrite =>
      if own == NO_INFORMATION then master
      else if master != NO_INFORMATION && master < own then own else master
  }

  /** Costs with the unknown one below all others. */
  function Known(c: Cost): int {
    if c == NO_INFORMATION then -1 else c
  }

  /** Merging by maximum is the larger of the two known costs; the other form leaves an unknown master cell unknown. */
  lemma MaximumIsLargestKnown(own: Cost, master: Cost)
    ensures Known(Merge(Maximum, own, master)) == Max(Known(own), Known(master))
    ensures Known(Merge(MaximumWithoutUnknownOverwrite, own, master)) ==
            if master == NO_INFORMATION then -1 else Max(Known(own), Known(master))
  {
  }

  /** What each way of merging promises: the master cell held `master`, the layer has `own`, and it holds `after`. */
  ghost predicate Promised(combination: Combination, own: Cost, master: Cost, after: Cost) {
    match combination
    case TrueOverwrite => after == own
    case Overwrite => (own != 255 ==> after == own) && (own == 255 ==> after == master)
    case Maximum =>
      && (own == 255 ==> after == master) && (own != 255 && master == 255 ==> after == own)
      && (own != 255 && master != 255 ==> after == if master < own then own else master)
    case MaximumWithoutUnknownOverwrite =>
      && (own == 255 || master == 255 ==> after == master)
      && (own != 255 && master != 255 ==> after == if master < own then own else master)
  }

  lemma MergeIsPromised(combination: Combination, own: Cost, master: Cost)
    ensures Promised(combination, own, master, Merge(combination, own, master))
  {
  }

  /** The effect of a layer on the master cell `(x, y)` holding `master`. */
  function MergeAt(layer: Layer, w: nat, h: nat, x: int, y: int, master: Cost): Cost {
    if layer.enabled then Merge(layer.combination, CellOf(layer.costmap, w, h, x, y, NO_INFORMATION), master)
    else master
  }

  /** `after` is `before` with the layer merged into every cell of the window. */
  ghost predicate Merged(before: seq<Cost>, after: seq<Cost>, w: nat, h: nat, layer: Layer, win: Window) {
    && |after| == |before|
    && forall x: int, y: int :: 0 <= x < w && 0 <= y < h ==>
         CellOf(after, w, h, x, y, 0) ==
         if win.Contains(x, y) then MergeAt(layer, w, h, x, y, CellOf(before, w, h, x, y, 0))
         else CellOf(before, w, h, x, y, 0)
  }

  ghost predicate MergedUpTo(before: seq<Cost>, after: seq<Cost>, w: nat, h: nat, layer: Layer, win: Window, col: int,
                             row: int) {
    && |after| == |before|
    && forall x: int, y: int :: 0 <= x < w && 0 <= y < h ==>
         CellOf(after, w, h, x, y, 0) ==
         if win.Contains(x, y) && (y < row || (y == row && x < col))
         then MergeAt(layer, w, h, x, y, CellOf(before, w, h, x, y, 0)) else CellOf(before, w, h, x, y, 0)
  }

  /** An enabled layer does to each cell of the window what its way of merging promises; nothing else changes. */
  ghost predicate WindowIsMerged(before: seq<Cost>, after: seq<Cost>, w: nat, h: nat, layer: Layer, win: Window) {
    && |after| == |before| && (!layer.enabled ==> after == before)
    && forall x: int, y: int :: 0 <= x < w && 0 <= y < h ==>
         if layer.enabled && win.Contains(x, y)
         then Promised(layer.combination, CellOf(layer.costmap, w, h, x, y, 255), CellOf(before, w, h, x, y, 0),
                       CellOf(after, w, h, x, y, 0))
         else CellOf(after, w, h, x, y, 0) == CellOf(before, w, h, x, y, 0)
  }

  lemma MergedIsPromised(before: seq<Cost>, after: seq<Cost>, w: nat, h: nat, layer: Layer, win: Window)
    requires |before| == w * h && Merged(before, after, w, h, layer, win)
    ensures WindowIsMerged(before, after, w, h, layer, win)
  {
    forall x: int, y: int | 0 <= x < w && 0 <= y < h && layer.enabled && win.Contains(x, y)
      ensures Promised(layer.combination, CellOf(layer.costmap, w, h, x, y, 255), CellOf(before, w, h, x, y, 0),
                       CellOf(after, w, h, x, y, 0))
    {
      MergeIsPromised(layer.combination, CellOf(layer.costmap, w, h, x, y, 255), CellOf(before, w, h, x, y, 0));
    }
    if !layer.enabled {
      SameCellsSameGrid(after, before, w, h, 0);
    }
  }

  lemma MergeOne(before: seq<Cost>, after: seq<Cost>, w: nat, h: nat, layer: Layer, win: Window, col: nat, row: nat)
    requires |before| == |layer.costmap| == w * h && layer.enabled && win.Fits(w, h) && win.Contains(col, row)
    requires MergedUpTo(before, after, w, h, layer, win, col, row)
    ensures Index(col, row, w) < |after| == |layer.costmap|
    ensures var merged := Merge(layer.combination, layer.costmap[Index(col, row, w)], after[Index(col, row, w)]);
      MergedUpTo(before, WithCell(after, w, h, col, row, merged), w, h, layer, win, col + 1, row)
  {
    CellOfGrid(after, w, h, col, row, 0);
    CellOfGrid(layer.costmap, w, h, col, row, NO_INFORMATION);
    SetCell(after, w, h, col, row,
            Merge(layer.combination, layer.costmap[Index(col, row, w)], after[Index(col, row, w)]), 0);
  }

  /** `updateWithMax`, `updateWithMaxWithoutUnknownOverwrite`, `updateWithTrueOverwrite` and `updateWithOverwrite`. */
  method UpdateCosts(layer: Layer, master: Costmap2D, win: Window)
    requires master.Valid() && win.Fits(master.sizeX, master.sizeY) && |layer.costmap| == master.sizeX * master.sizeY
    modifies master.costmap
    ensures Merged(old(master.costmap[..]), master.costmap[..], master.sizeX, master.sizeY, layer, win)
    ensures WindowIsMerged(old(master.costmap[..]), master.costmap[..], master.sizeX, master.sizeY, layer, win)
  {
    ghost var before := master.costmap[..];
    if !layer.enabled {
      MergedIsPromised(before, before, master.sizeX, master.sizeY, layer, win);
      return;
    }
    var span := master.sizeX;
    for j := win.y0 to win.yn
      invariant MergedUpTo(before, master.costmap[..], span, master.sizeY, layer, win, win.x0, j)
    {
      var it := Index(win.x0, j, span);
      for i := win.x0 to win.xn
        invariant it == Index(i, j, span)
        invariant MergedUpTo(before, master.costmap[..], span, master.sizeY, layer, win, i, j)
      {
        ghost var g := master.costmap[..];
        MergeOne(before, g, span, master.sizeY, layer, win, i, j);
        StepIndices(i, j, span);
        UpdateCell(layer, master, it);
        assert master.costmap[..] == WithCell(g, span, master.sizeY, i, j,
                                              Merge(layer.combination, layer.costmap[it], g[it]));
        it := it + 1;
      }
    }
    MergedIsPromised(before, master.costmap[..], master.sizeX, master.sizeY, layer, win);
  }

  /** The body of the four loops for one cell. */
  method UpdateCell(layer: Layer, master: Costmap2D, it: nat)
    requires it < master.costmap.Length && it < |layer.costmap|
    modifies master.costmap
    ensures master.costmap[..] ==
            old(master.costmap[..])[it := Merge(layer.combination, layer.costmap[it], old(master.costmap[it]))]
  {
    match layer.combination {
      case TrueOverwrite =>
        master.costmap[it] := layer.costmap[it];
      case Overwrite =>
        if layer.costmap[it] != NO_INFORMATION {
          master.costmap[it] := layer.costmap[it];
        }
      case Maximum =>
        if layer.costmap[it] == NO_INFORMATION {
          return;
        }
        var oldCost := master.costmap[it];
        if oldCost == NO_INFORMATION || oldCost < layer.costmap[it] {
          master.costmap[it] := layer.costmap[it];
        }
      case MaximumWithoutUnknownOverwrite =>
        if layer.costmap[it] == NO_INFORMATION {
          return;
        }
        var oldCost := master.costmap[it];
        if oldCost != NO_INFORMATION && oldCost < layer.costmap[it] {
          master.costmap[it] := layer.costmap[it];
        }
    }
  }
}
