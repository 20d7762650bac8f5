/** The voxel layer (`VoxelLayer`): a cost grid and a grid of voxel columns that move together. */
module Voxel {
  import opened Grid
  import opened RollingWindow
  import opened Costmap

  /** The reset value of a column: the low sixteen bits set, every voxel unknown. */
  const UNKNOWN_COLUMN: nat := 0xFFFF

  class VoxelLayer {
    var sizeX: nat
    var sizeY: nat
    var resolution: real
    var originX: real
    var originY: real
    var costmap: array<Cost>
    var voxels: array<nat>
    var defaultValue: Cost

    ghost predicate Valid()
      reads this
    {
      costmap.Length == voxels.Length == sizeX * sizeY && resolution > 0.0
    }

    /** Every cell and its column stand in the relation. */
    ghost predicate InStep(related: (Cost, nat) -> bool)
      reads this, costmap, voxels
    {
      costmap.Length == voxels.Length && forall k :: 0 <= k < costmap.Length ==> related(costmap[k], voxels[k])
    }

    /** `resetMaps`: both grids. */
    method ResetMaps()
      requires Valid()
      modifies costmap, voxels
      ensures forall k :: 0 <= k < costmap.Length ==> costmap[k] == defaultValue && voxels[k] == 0xFFFF
    {
      for k := 0 to costmap.Length
        invariant forall j :: 0 <= j < k ==> costmap[j] == defaultValue
      {
        costmap[k] := defaultValue;
      }
      for k := 0 to voxels.Length
        invariant forall j :: 0 <= j < costmap.Length ==> costmap[j] == defaultValue
        invariant forall j :: 0 <= j < k ==> voxels[j] == UNKNOWN_COLUMN
      {
        voxels[k] := UNKNOWN_COLUMN;
      }
    }

    /** The buffer part of `updateOrigin`: both overlaps out, one reset, both overlaps back. */
    method ShiftGrids(cellOx: int, cellOy: int)
      requires Valid()
      modifies costmap, voxels
      ensures Shifted(sizeX, sizeY, old(costmap[..]), costmap[..], cellOx, cellOy, defaultValue)
      ensures Shifted(sizeX, sizeY, old(voxels[..]), voxels[..], cellOx, cellOy, UNKNOWN_COLUMN)
    {
      var overlap := OverlapOf(sizeX, sizeY, cellOx, cellOy);
      var localMap := SaveOverlap(costmap, sizeX, sizeY, overlap, 0, defaultValue);
      var localVoxelMap := SaveOverlap(voxels, sizeX, sizeY, overlap, 0, UNKNOWN_COLUMN);
      ResetMaps();
      RestoreOverlap(costmap, localMap, sizeX, sizeY, cellOx, cellOy, overlap, old(costmap[..]), defaultValue);
      RestoreOverlap(voxels, localVoxelMap, sizeX, sizeY, cellOx, cellOy, overlap, old(voxels[..]), UNKNOWN_COLUMN);
    }

    /**
     `updateOrigin`: both grids move by the same whole number of cells, so any relation between a cell and its column
     that holds of a reset pair survives the move.
     */
    method UpdateOrigin(newOriginX: real, newOriginY: real, ghost related: (Cost, nat) -> bool)
      requires Valid() && InStep(related) && related(defaultValue, UNKNOWN_COLUMN)
      modifies this`originX, this`originY, costmap, voxels
      ensures Valid() && InStep(related)
      ensures originX == MovedOrigin(newOriginX, old(originX), resolution)
      ensures originY == MovedOrigin(newOriginY, old(originY), resolution)
      ensures var ox := CellShift(newOriginX, old(originX), resolution);
        var oy := CellShift(newOriginY, old(originY), resolution);
        && Shifted(sizeX, sizeY, old(costmap[..]), costmap[..], ox, oy, defaultValue)
        && Shifted(sizeX, sizeY, old(voxels[..]), voxels[..], ox, oy, UNKNOWN_COLUMN)
    {
      ghost var costs0, columns0 := costmap[..], voxels[..];
      var cellOx, cellOy := CellShift(newOriginX, originX, resolution), CellShift(newOriginY, originY, resolution);
      var newGridOx := MovedOrigin(newOriginX, originX, resolution);
      var newGridOy := MovedOrigin(newOriginY, originY, resolution);
      ShiftGrids(cellOx, cellOy);
      originX, originY := newGridOx, newGridOy;
      ShiftKeepsRelation(sizeX, sizeY, costs0, costmap[..], columns0, voxels[..], cellOx, cellOy,
                         defaultValue, UNKNOWN_COLUMN, related);
    }
  }

  /** Over any run of moves the two grids never drift apart. */
  method Track(layer: VoxelLayer, requests: seq<(real, real)>, ghost related: (Cost, nat) -> bool)
    requires layer.Valid() && layer.InStep(related) && related(layer.defaultValue, UNKNOWN_COLUMN)
    modifies layer`originX, layer`originY, layer.costmap, layer.voxels
    ensures layer.Valid() && layer.InStep(related)
  {
    for k := 0 to |requests|
      invariant layer.Valid() && layer.InStep(related)
    {
      layer.UpdateOrigin(requests[k].0, requests[k].1, related);
    }
  }
}
