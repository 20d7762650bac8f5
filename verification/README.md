# Costmaps and the collision monitor of Navigation2, in Dafny

This project models the costmap engine of `nav2_costmap_2d` and the decision loop of `nav2_collision_monitor`, and
proves what they guarantee on every input and over every run. `dafny verify dfyconfig.toml` checks all of it.

| file | what it models |
|---|---|
| `Grid.dfy` | cost values, row-major indices, windows |
| `DistanceLevels.dfy` | the bin numbers of the inflation wavefront |
| `Wavefront.dfy` | the invariant of the wavefront and what each of its steps keeps |
| `Inflation.dfy` | what a finished wavefront means for distances and costs |
| `NearestObstacle.dfy` | when the wavefront finds the nearest obstacle |
| `InflationLayer.dfy` | the inflation layer: caches, parameter events, the in-place scan |
| `InflationOutcome.dfy` | what a call of the layer means for the grid |
| `RollingWindow.dfy`, `Costmap2D.dfy`, `VoxelLayer.dfy` | the cost grid, its rolling window, and the voxel grid that moves with it |
| `Coordinates.dfy` | world and map coordinates |
| `Raytrace.dfy`, `PolygonFill.dfy`, `PolygonCost.dfy` | line walks, outlines, the sort and sweep that fill a polygon |
| `CostmapLayer.dfy`, `LayeredCostmap.dfy` | merging layers, and the incremental update of the master grid |
| `Replication.dfy`, `Mirror.dfy` | publisher, subscriber, and the whole map update loop |
| `Plane.dfy`, `RayCrossing.dfy`, `ConvexPolygon.dfy`, `CollisionTime.dfy` | point in polygon, and the look-ahead simulation |
| `MostRestrictive.dfy`, `CommandLog.dfy`, `CollisionMonitor.dfy` | choosing the safest velocity, and when it is published |
| `Footprint.dfy` | the radii of a robot footprint |

## Main results

- The inflation wavefront scans bins that grow while they are scanned. It ends, writes each cell at most once, appends at
  most one entry per obstacle and four per cell, and never indexes a cache or a bin out of range.
- For any number of obstacles, a call of `updateCosts` is inflation of every cell from its nearest obstacle whenever each
  cell is linked to one: a neighbour one step nearer belongs to that obstacle alone (`LinkedInflationIsBruteForce`).
  Where no cell has two nearest obstacles this condition, which speaks of obstacles and grid only, is also necessary
  (`ExactExactlyWhenLinked`). `NearestIsMissed` is a 4 by 4 grid where it fails.
- In every case a known cell is never lowered and never raised above inflation from its nearest obstacle. An unknown cell
  can end above it, in exactly the case `NeverAboveNearest` names; `UnknownIsMissed` is such a grid, and
  `UnknownNeverAboveExactlyWhenLinked` says when no cost can bring it about.
- The caches of the inflation layer equal a fresh computation after any run of resizes, footprint changes and parameter
  events.
- The incremental update, which resets and merges only the reported window, keeps the master grid equal to a full
  recomputation, filters included. The window is that of the smallest bounds around what was touched. A subscriber that only receives rectangles of it shows the same cells
  (`MapUpdateLoop`).
- The replica of a costmap is exact after an incremental publication exactly when nothing outside the dirty box changed,
  and over any run in which that holds subscribers only ever see published maps (`Run`). A window that moves away and
  back between two publications breaks it, and the publisher cannot see it.
- Over any run of moves a cell of the rolling window keeps its value exactly when it was in view throughout.
- The polygon fill gives exactly the cells between two outline cells of their column; its sort ends on every input.
- The ray-crossing answer does not depend on how the outline is written down, is additive over cuts, and is false for
  every point outside the convex hull. For every strictly convex polygon and every point it is half-open membership
  (`ConvexExactly`).
- The collision monitor's output is the slowest velocity any zone asks for. Its speed does not depend on the order of
  zones, and more obstacle points or further sources never make it faster; the velocity itself depends on the order
  exactly when two different candidates are equally slow. After every command the robot has been told what is required of it.

Three promises of the source do not hold as written. `worldToMapEnforceBounds` can leave the map, exactly on the upper
edge. The source kept with an inflated cell is not always the closest obstacle. An incremental publication can miss
cells when the window returns to the geometry last published.

## Modelling conventions

Costs are numbers from 0 to 255. Coordinates, times and velocities are reals, sizes and indices unbounded integers.
Distances are squared wherever the source takes a root only to compare it. The exponential in the inflation cost is a
parameter that never rises with distance and stays below the inscribed cost. Cosine, sine and `hypot` are parameters with
the identities each lemma states. `std::sort` is an insertion sort whose contract is an ordered permutation, and callers
use nothing else. The conversion of a resolution to single precision is a parameter without assumptions. Messages,
clocks, sensor readings and parameter events are arguments. Fields that the publisher compares before anything has set
them are `None`, so that the first publication is a full one.

## Model

| member | source | states |
|---|---|---|
| `DistanceLevels.LevelOrderIsomorphism` | nav2_costmap_2d/plugins/inflation_layer.cpp:396-414 | the level of one offset is below, equal to or above that of another exactly as its squared distance is |
| `DistanceLevels.LevelInRange` | nav2_costmap_2d/plugins/inflation_layer.cpp:403-417 | every offset of the disc has a level between 0 and that of the rim, so no bin index is out of range |
| `DistanceLevels.DiscPoints` | nav2_costmap_2d/plugins/inflation_layer.cpp:383-394 | the two loops list exactly the offsets of the disc of the given radius |
| `DistanceLevels.AssignLevels` | nav2_costmap_2d/plugins/inflation_layer.cpp:403-414 | along any list sorted by distance the counting loop writes to each listed offset its rank, and leaves every other entry 0 |
| `DistanceLevels.NextLevel` | nav2_costmap_2d/plugins/inflation_layer.cpp:404-414 | in every sorted enumeration of the disc the level rises by one exactly where the distance changes |
| `DistanceLevels.GenerateIntegerDistances` | nav2_costmap_2d/plugins/inflation_layer.cpp:381-418 | the matrix holds the level of every offset of the disc and the returned number is the largest one, whatever order the sort gives to ties |
| `Wavefront.InitialInv` | nav2_costmap_2d/plugins/inflation_layer.cpp:231-241 | one entry per obstacle in bin 0 and nothing seen establishes the invariant of the scan |
| `Wavefront.EnqueueGrows` | nav2_costmap_2d/plugins/inflation_layer.cpp:323-339 | one call of `enqueue` appends behind what the bins held, only for the neighbour given, and always when that neighbour is unseen and in reach |
| `Wavefront.EnqueueFirstGrows` | nav2_costmap_2d/plugins/inflation_layer.cpp:285-297 | after the first `k` guarded calls exactly the neighbours tried so far that needed an entry have one |
| `Wavefront.NeighboursAreComplete` | nav2_costmap_2d/plugins/inflation_layer.cpp:286-297 | the four guards let through exactly the in-grid neighbours of the cell |
| `Wavefront.SkipKeepsInv` | nav2_costmap_2d/plugins/inflation_layer.cpp:253-256 | passing an entry whose cell was seen keeps the invariant |
| `Wavefront.NextBinKeepsInv` | nav2_costmap_2d/plugins/inflation_layer.cpp:246-247 | leaving a bin scanned to its end, although it grew meanwhile, keeps the invariant |
| `Wavefront.VisitHandlesNeighbour` | nav2_costmap_2d/plugins/inflation_layer.cpp:258-297 | a neighbour farther from the source than the cell just processed was processed before from something no farther, or now waits in a bin not yet passed |
| `Wavefront.VisitKeepsInv` | nav2_costmap_2d/plugins/inflation_layer.cpp:258-297 | processing an unseen entry keeps the whole invariant: sound sources, handled neighbours, and a chain of nearer cells back to the source |
| `Wavefront.TotalAfterAppend` | nav2_costmap_2d/plugins/inflation_layer.cpp:335-337 | appending to any bin adds one to the number of entries ever queued |
| `Wavefront.ProcessedCount` | nav2_costmap_2d/plugins/inflation_layer.cpp:254-258 | no more cells are processed than the grid has |
| `Wavefront.FinalState` | nav2_costmap_2d/plugins/inflation_layer.cpp:246-299 | when all bins are passed: every seed is its own source, sources are real and in reach, and every outward neighbour of a processed cell is processed at a level no greater |
| `Inflation.CompleteIsInflated` | nav2_costmap_2d/plugins/inflation_layer.cpp:246-299 | the finished wavefront, said in squared distances instead of bins |
| `Inflation.DistIsGeometric` | nav2_costmap_2d/include/nav2_costmap_2d/inflation_layer.hpp:221-228 | a step to a neighbour always changes the distance to a cell, and every other cell has a neighbour nearer to it inside the box the two span |
| `Inflation.LevelsRankDistances` | nav2_costmap_2d/plugins/inflation_layer.cpp:381-418 | levels order the distances between cells, and distances within the radius have levels below the number of bins |
| `Inflation.ExactAlongPath` | nav2_costmap_2d/plugins/inflation_layer.cpp:246-299 | with any number of obstacles, a cell that an outward path joins to its nearest obstacle through cells that obstacle strictly dominates is inflated with its true distance |
| `Inflation.NearestIsMissed` | nav2_costmap_2d/include/nav2_costmap_2d/inflation_layer.hpp:66-67 | the stored source is not always the closest obstacle: three obstacles on a 4 by 4 grid for which a corner gets squared distance 9 instead of 8, in whatever order entries are scanned |
| `Inflation.SingleSeedCoversDisc` | nav2_costmap_2d/plugins/inflation_layer.cpp:231-299 | with one obstacle exactly the in-grid cells within the radius are inflated |
| `Inflation.SingleSeedMatchesBruteForce` | nav2_costmap_2d/plugins/inflation_layer.cpp:231-299 | with one obstacle the grid after painting is the brute-force result on every cell |
| `Inflation.ScanAreaSuffices` | nav2_costmap_2d/plugins/inflation_layer.cpp:208-224 | no obstacle outside the scanned area is within the radius of a cell of the box |
| `Inflation.CombineMonotoneExactly` | nav2_costmap_2d/plugins/inflation_layer.cpp:276-282 | a larger cost gives a smaller result in exactly one case: it overwrites an unknown cell that the smaller cost leaves |
| `Inflation.NeverAboveBruteForce` | nav2_costmap_2d/plugins/inflation_layer.cpp:246-299 | with any number of obstacles the inflated cost never exceeds that of the nearest one, a known cell is never lowered, an unknown cell the nearest one would not overwrite stays unknown, and a cell ends above inflation from its nearest obstacle in exactly one case: it was unknown, the nearest one would have overwritten it and its source did not |
| `NearestObstacle.LinkedIsExact` | nav2_costmap_2d/plugins/inflation_layer.cpp:246-299 | if every cell in reach has a neighbour, one step towards a nearest obstacle, that is nearer to that obstacle than to any other, then every cell in reach is inflated with the distance of its nearest obstacle; the condition speaks of obstacles and grid only |
| `NearestObstacle.ExactIsTouching` | nav2_costmap_2d/plugins/inflation_layer.cpp:246-299 | if every cell in reach is inflated with that distance, each has such a neighbour that is at least as near to the obstacle as to any other |
| `NearestObstacle.ExactExactlyWhenLinked` | nav2_costmap_2d/include/nav2_costmap_2d/inflation_layer.hpp:66-67 | where no cell in reach has two nearest obstacles, the stored source is the closest obstacle of every cell exactly when every cell is linked in this way |
| `NearestObstacle.OneObstacleIsLinked` | nav2_costmap_2d/plugins/inflation_layer.cpp:246-299 | one obstacle is linked to every cell |
| `NearestObstacle.UnknownNeverAboveExactly` | nav2_costmap_2d/plugins/inflation_layer.cpp:276-282 | no unknown cell ends above inflation from its nearest obstacle, whatever the falling cost, exactly when the wavefront finds the nearest obstacle of every cell |
| `NearestObstacle.UnknownNeverAboveExactlyWhenLinked` | nav2_costmap_2d/plugins/inflation_layer.cpp:276-282 | where no cell has two nearest obstacles, exactly when every cell is linked |
| `InflationPlugin.FillTable` | nav2_costmap_2d/plugins/inflation_layer.cpp:357-370 | the nested loops fill every entry of the square table with the value of its indices |
| `InflationPlugin.CostIsAntitone` | nav2_costmap_2d/include/nav2_costmap_2d/inflation_layer.hpp:151-165 | costs never rise with distance and never read as unknown |
| `InflationPlugin.CostMarks` | nav2_costmap_2d/include/nav2_costmap_2d/inflation_layer.hpp:151-165 | the lethal cost marks distance 0 only, and a cost of at least the inscribed one marks exactly the cells within the inscribed radius |
| `InflationPlugin.CellDistanceCovers` | nav2_costmap_2d/src/costmap_2d.cpp:252-256 | the number of cells is the least one whose length covers the distance |
| `InflationPlugin.CostsFromDistances` | nav2_costmap_2d/plugins/inflation_layer.cpp:366-370 | costs read off correct distances are the costs of those distances |
| `InflationPlugin.RecomputeCoversChanges` | nav2_costmap_2d/plugins/inflation_layer.cpp:431-472 | if a parameter event asks for no recomputation, nothing the caches depend on has changed |
| `InflationPlugin.ReinflateCoversChanges` | nav2_costmap_2d/plugins/inflation_layer.cpp:433-468 | if it asks for no reinflation, it has changed no setting at all |
| `InflationPlugin.LastGivenWins` | nav2_costmap_2d/plugins/inflation_layer.cpp:429-468 | after an event each setting has the last value the event gives to its key and this layer, and its old value if there is none |
| `InflationPlugin.ChangesAsk` | nav2_costmap_2d/plugins/inflation_layer.cpp:433-468 | a parameter asks for recomputation exactly if it changes the radius or the scaling factor, and for reinflation exactly if it changes some setting |
| `InflationPlugin.FreshCachesImplement` | nav2_costmap_2d/include/nav2_costmap_2d/inflation_layer.hpp:221-245 | freshly computed caches answer every lookup of the wavefront as the definitions do, with no index out of range |
| `InflationPlugin.MakeContext` | nav2_costmap_2d/plugins/inflation_layer.cpp:180-241 | fresh caches give the wavefront everything it relies on, and a finished wavefront that was painted is the outcome promised for the call |
| `InflationPlugin.InflationLayer.Enqueue` | nav2_costmap_2d/plugins/inflation_layer.cpp:319-340 | the bins become those of the specified `enqueue`, every append is counted as queued, and nothing else changes |
| `InflationPlugin.InflationLayer.WriteCost` | nav2_costmap_2d/plugins/inflation_layer.cpp:265-283 | in the box a known cell takes the larger cost, and an unknown one the new cost if that is at least 253, or positive with `inflate_unknown`; no other cell changes |
| `InflationPlugin.InflationLayer.ProcessCell` | nav2_costmap_2d/plugins/inflation_layer.cpp:258-297 | an unseen entry is marked, painted and its neighbours enqueued: the state is that of one `Visit` of the wavefront |
| `InflationPlugin.InflationLayer.ScanEntry` | nav2_costmap_2d/plugins/inflation_layer.cpp:251-297 | one entry, skipped or processed, keeps the invariant that ties `seen_`, the bins and the painted cells to the wavefront |
| `InflationPlugin.InflationLayer.ScanEntries` | nav2_costmap_2d/plugins/inflation_layer.cpp:247-298 | a bin that grows while it is scanned is scanned to its end, which is reached: each pass processes a new cell or comes nearer the end |
| `InflationPlugin.InflationLayer.ScanBin` | nav2_costmap_2d/plugins/inflation_layer.cpp:246-299 | one bin after another, the invariant is kept and at most four entries per processed cell are added |
| `InflationPlugin.InflationLayer.Propagate` | nav2_costmap_2d/plugins/inflation_layer.cpp:246-299 | all bins are scanned and the wavefront is complete |
| `InflationPlugin.AreaIsSeeded` | nav2_costmap_2d/plugins/inflation_layer.cpp:231-241 | gathering row by row gives each obstacle of the scanned area one entry, itself as source |
| `InflationPlugin.InflationLayer.GatherRow` | nav2_costmap_2d/plugins/inflation_layer.cpp:233-240 | one row of the area adds the entries of its obstacles, in order, and counts them |
| `InflationPlugin.InflationLayer.GatherObstacles` | nav2_costmap_2d/plugins/inflation_layer.cpp:231-241 | bin 0 gets one entry for each obstacle of the scanned area, itself as source, and each is counted as queued |
| `InflationPlugin.InflationLayer.Inflate` | nav2_costmap_2d/plugins/inflation_layer.cpp:197-304 | gathering, spreading and emptying: complete wavefront, every inflated cell of the box painted once, at most one entry per obstacle and four per cell appended during the call, bins empty again |
| `InflationPlugin.InflationLayer.UpdateCosts` | nav2_costmap_2d/plugins/inflation_layer.cpp:180-307 | nothing changes when disabled or without radius; otherwise the grid is painted, for the parameters of the layer, from a sound, outward closed and connected set of cells, only inside the box, with at most one entry per obstacle and four per cell appended |
| `InflationPlugin.InflationLayer.InflateBox` | nav2_costmap_2d/plugins/inflation_layer.cpp:197-307 | with fresh caches, the outcome of the call for its box, the bound on appended entries, and the layer as valid as before |
| `InflationPlugin.OutcomeInSquaredDistances` | nav2_costmap_2d/plugins/inflation_layer.cpp:180-307 | the outcome a call promises is the one for squared distance |
| `InflationPlugin.InflationLayer.constructor` | nav2_costmap_2d/plugins/inflation_layer.cpp:61-77 | a new layer is disabled, has no radius and no scaling, and satisfies the cache invariant |
| `InflationPlugin.InflationLayer.ComputeCaches` | nav2_costmap_2d/plugins/inflation_layer.cpp:343-378 | whatever was cached, all caches equal a fresh computation afterwards, although distances are refilled only when the cell radius differs |
| `InflationPlugin.InflationLayer.MatchSize` | nav2_costmap_2d/plugins/inflation_layer.cpp:121-129 | a resize leaves fresh caches for the new resolution |
| `InflationPlugin.InflationLayer.OnFootprintChanged` | nav2_costmap_2d/plugins/inflation_layer.cpp:165-177 | a new inscribed radius leaves fresh caches |
| `InflationPlugin.InflationLayer.ApplyParameter` | nav2_costmap_2d/plugins/inflation_layer.cpp:434-467 | one parameter has exactly the effect the settings function gives it |
| `InflationPlugin.InflationLayer.DynamicParameters` | nav2_costmap_2d/plugins/inflation_layer.cpp:425-476 | each of the five settings has the last value given for it, or is unchanged; the caches are fresh whenever the radius is not zero |
| `InflationPlugin.Run` | nav2_costmap_2d/plugins/inflation_layer.cpp:343-378 | over any run of resizes, footprint changes and parameter events, whenever the radius is not zero all caches and the number of bins equal a fresh computation |
| `InflationOutcome.NearestIsScanned` | nav2_costmap_2d/plugins/inflation_layer.cpp:208-224 | a cell of the box with an obstacle of the whole grid within the radius has its nearest obstacle in the scanned area |
| `InflationOutcome.OutOfReachIsUnchanged` | nav2_costmap_2d/plugins/inflation_layer.cpp:231-299 | a cell outside the box, or farther than the radius from every obstacle of the grid, keeps its cost |
| `InflationOutcome.ExactIsBruteForce` | nav2_costmap_2d/plugins/inflation_layer.cpp:231-299 | for every distance the wavefront can work with: where it finds nearest obstacles, every cell of the grid ends as inflation from the nearest obstacle of the whole grid leaves it |
| `InflationOutcome.LinkedInflationIsBruteForce` | nav2_costmap_2d/plugins/inflation_layer.cpp:180-307 | after a call of `updateCosts` with any number of obstacles, if every cell is linked, every cell of the grid, known or not, is inflated from its nearest obstacle and nothing else changes |
| `InflationOutcome.OneObstacleInflated` | nav2_costmap_2d/plugins/inflation_layer.cpp:180-307 | so it is with one obstacle in the scanned area, without further condition |
| `InflationOutcome.NeverAboveNearest` | nav2_costmap_2d/plugins/inflation_layer.cpp:180-307 | after any call of `updateCosts` a known cell is never lowered, and a cell ends above inflation from the nearest obstacle of the grid exactly when it was unknown, that obstacle would have overwritten it and its source did not |
| `InflationOutcome.WrittenCost` | nav2_costmap_2d/plugins/inflation_layer.cpp:265-283 | for a processed cell of the box, whatever the setting: a known cell ends as the larger of its cost and the cost of its distance, an unknown one as the latter if that is at least 253, or positive with `inflate_unknown`, and unknown otherwise |
| `InflationOutcome.ScannedExactly` | nav2_costmap_2d/plugins/inflation_layer.cpp:208-241 | the obstacles of a call are exactly the cells of the box, grown by the radius on all sides, that hold 254, or 255 when inflating around unknown |
| `InflationOutcome.InscribedInMetres` | nav2_costmap_2d/include/nav2_costmap_2d/inflation_layer.hpp:151-165 | in metres: lethal exactly at distance zero, at least inscribed exactly within the inscribed radius, and the exponential beyond |
| `InflationOutcome.UnknownIsMissed` | nav2_costmap_2d/plugins/inflation_layer.cpp:276-282 | a 4 by 4 grid with an unknown corner that stays unknown although its nearest obstacle would have made it inscribed |
| `Grid.IndexInjective` | nav2_costmap_2d/include/nav2_costmap_2d/costmap_2d.hpp:212-215 | different cells of the map have different flat indices |
| `Grid.IndexToCells` | nav2_costmap_2d/include/nav2_costmap_2d/costmap_2d.hpp:223-227 | converting an index back gives the cell it was made from |
| `Costmap.CopyMapRegion` | nav2_costmap_2d/include/nav2_costmap_2d/costmap_2d.hpp:382-400 | the rectangle of the destination holds that of the source and nothing else changes; an empty rectangle may start anywhere |
| `RollingWindow.ShiftByCopies` | nav2_costmap_2d/src/costmap_2d.cpp:344-377 | a saved overlap copied into a reset grid shifts the grid, for every shift however large |
| `RollingWindow.OriginFollowsRequest` | nav2_costmap_2d/src/costmap_2d.cpp:329-338 | the new origin is less than one cell from the request, between it and the old origin |
| `RollingWindow.RunKeepsExactlyTheCovered` | nav2_costmap_2d/src/costmap_2d.cpp:327-381 | after any run of shifts a cell in view holds its first value exactly when its world position lay in every window of the run, and the default otherwise |
| `RollingWindow.ShiftKeepsRelation` | nav2_costmap_2d/plugins/voxel_layer.cpp:413-478 | two grids shifted alike keep every relation between their cells that holds of a reset pair |
| `Costmap.Costmap2D.constructor` | nav2_costmap_2d/src/costmap_2d.cpp:49-60 | a new map has the given geometry and the default value everywhere |
| `Costmap.Costmap2D.ResetMaps` | nav2_costmap_2d/src/costmap_2d.cpp:124-128 | every cell holds the default value |
| `Costmap.SaveOverlap` | nav2_costmap_2d/src/costmap_2d.cpp:354-361 | the buffer holds the cells the window shares with its new place |
| `Costmap.RestoreOverlap` | nav2_costmap_2d/src/costmap_2d.cpp:370-377 | a reset grid with the saved cells copied back is the shifted grid |
| `Costmap.Costmap2D.ShiftCells` | nav2_costmap_2d/src/costmap_2d.cpp:344-377 | every cell holds what lay the given shift away, or the default |
| `Costmap.Costmap2D.UpdateOrigin` | nav2_costmap_2d/src/costmap_2d.cpp:327-381 | the origin moves by whole cells and the buffer is shifted with it |
| `Costmap.Costmap2D.ResetMapToValue` | nav2_costmap_2d/src/costmap_2d.cpp:135-143 | exactly the window is overwritten |
| `Costmap.Costmap2D.CopyWindow` | nav2_costmap_2d/src/costmap_2d.cpp:184-205 | refused without change exactly when the window leaves either map; otherwise the window is copied and nothing else changes |
| `Costmap.OriginStaysOnGrid` | nav2_costmap_2d/src/costmap_2d.cpp:329-338 | after any run of requests the origin lies a whole number of cells from the first one, as many as the shifts add up to, and within one cell of the last request |
| `Costmap.Roll` | nav2_costmap_2d/src/costmap_2d.cpp:327-381 | over any run of requests the origin follows them cell by cell, and a cell in view holds its first value exactly when its world position lay in every window of the run, and the default otherwise |
| `Voxel.VoxelLayer.ResetMaps` | nav2_costmap_2d/plugins/voxel_layer.cpp:137-145 | every cell holds the default value and every column has its low sixteen bits set |
| `Voxel.VoxelLayer.ShiftGrids` | nav2_costmap_2d/plugins/voxel_layer.cpp:430-473 | cost grid and voxel columns are shifted by the same cells |
| `Voxel.VoxelLayer.UpdateOrigin` | nav2_costmap_2d/plugins/voxel_layer.cpp:413-478 | every relation between a cell and its column that holds of a reset pair survives the move |
| `Voxel.Track` | nav2_costmap_2d/plugins/voxel_layer.cpp:413-478 | over any run of moves the two grids never drift apart |
| `Coordinates.ToMapIsTheCell` | nav2_costmap_2d/src/costmap_2d.cpp:284-297 | a coordinate is given cell `m` exactly when it lies between the edges of cell `m` |
| `Coordinates.ToMapDefined` | nav2_costmap_2d/src/costmap_2d.cpp:284-297 | a coordinate is given a cell exactly when it lies in the half-open extent of the map |
| `Coordinates.RoundTrip` | nav2_costmap_2d/src/costmap_2d.cpp:278-297 | a cell is converted to the point midway between its edges, and converting that back gives the cell |
| `Coordinates.EnforceBoundsAgrees` | nav2_costmap_2d/src/costmap_2d.cpp:305-325 | inside the extent, enforcing bounds gives the same cell |
| `Coordinates.EnforceBoundsInMapExactly` | nav2_costmap_2d/include/nav2_costmap_2d/costmap_2d.hpp:196-204 | the promise that the result lies within the map holds exactly for a map with cells and a coordinate other than its upper edge |
| `Coordinates.EnforceBoundsLeavesMap` | nav2_costmap_2d/src/costmap_2d.cpp:305-325 | a concrete coordinate on the upper edge that is given a cell past the last |
| `Coordinates.EnforceBoundsMonotone` | nav2_costmap_2d/src/costmap_2d.cpp:305-325 | larger coordinates never get smaller cells, the upper edge apart |
| `Raytrace.WalkIsOnLine` | nav2_costmap_2d/include/nav2_costmap_2d/costmap_2d.hpp:497-507 | the error term of the walk is in range and says how far the walk is from the line |
| `Raytrace.MinorArrives` | nav2_costmap_2d/include/nav2_costmap_2d/costmap_2d.hpp:497-507 | the minor axis never overshoots and has arrived when the dominant one has |
| `Raytrace.Bresenham2D` | nav2_costmap_2d/include/nav2_costmap_2d/costmap_2d.hpp:491-508 | the loop hands to its action exactly the offsets of the walk up to the maximum length, in order |
| `Raytrace.StartCell` | nav2_costmap_2d/include/nav2_costmap_2d/costmap_2d.hpp:446-456 | a line with a minimum length starts in the cell that length along the segment, in the box its ends span, and at the first end when there is no minimum |
| `Raytrace.StepsWithin` | nav2_costmap_2d/include/nav2_costmap_2d/costmap_2d.hpp:468-482 | of the steps of a line a maximum length leaves the most that are no larger part than it is of the distance, and all of them when it is no shorter |
| `Raytrace.RaytraceLine` | nav2_costmap_2d/include/nav2_costmap_2d/costmap_2d.hpp:431-483 | nothing when the ends are closer than the minimum length; otherwise the cells go from the start cell towards the far end, touch one another, stay in the box of the two and within half a cell of the segment, as many as the maximum length leaves, and reach the end when it is no shorter than the distance |
| `Raytrace.WholeLine` | nav2_costmap_2d/include/nav2_costmap_2d/costmap_2d.hpp:431-483 | with the default lengths the cells start and end at the given ends, touch one another, stay in their bounding box and within half a cell of the segment |
| `PolygonFill.PolygonOutlineCells` | nav2_costmap_2d/src/costmap_2d.cpp:412-427 | the cells are the lines of all edges, the closing one included, and form a closed walk through every vertex |
| `PolygonFill.CrossesTwice` | nav2_costmap_2d/src/costmap_2d.cpp:465-478 | a closed walk that reaches both sides of a column meets it at least twice |
| `PolygonFill.OutlineColumns` | nav2_costmap_2d/src/costmap_2d.cpp:465-478 | a closed outline meets every column of its extent at least twice, so taking two cells at once skips none |
| `PolygonFill.ExchangeRemovesInversion` | nav2_costmap_2d/src/costmap_2d.cpp:444-456 | exchanging a neighbouring pair in wrong order removes exactly one inversion |
| `PolygonFill.SortByX` | nav2_costmap_2d/src/costmap_2d.cpp:441-456 | the back-stepping sort ends on every input, with a permutation ordered by column |
| `PolygonFill.ScanColumn` | nav2_costmap_2d/src/costmap_2d.cpp:466-486 | the scan of one column finds its lowest and highest outline cell and stops before the cells the sweep appended itself |
| `PolygonFill.Sweep` | nav2_costmap_2d/src/costmap_2d.cpp:458-495 | exactly the cells between the lowest and highest outline cell of each column are appended, each once |
| `PolygonFill.ConvexFillCells` | nav2_costmap_2d/src/costmap_2d.cpp:429-496 | the cells are exactly those between two outline cells of their column; fewer than three vertices give none |
| `PolygonFill.FillStaysInside` | nav2_costmap_2d/src/costmap_2d.cpp:399-408 | every filled cell lies within the extent of the vertices |
| `PolygonCost.ToMapPolygon` | nav2_costmap_2d/src/costmap_2d.cpp:389-397 | nothing exactly if a vertex lies outside the half-open extent of the map; otherwise each vertex becomes the cell whose edges it lies between, on both axes |
| `PolygonCost.SetConvexPolygonCost` | nav2_costmap_2d/src/costmap_2d.cpp:383-410 | refused without change exactly when a vertex lies outside the half-open extent of the map; otherwise exactly the fill of the cells the vertices lie in, all on the map, gets the value |
| `PolygonCost.CellOfPoint` | nav2_costmap_2d/src/costmap_2d.cpp:284-297 | a point is given a cell exactly if it lies in the extent of the map on both axes, and then lies between the edges of that cell on both |
| `CostmapLayers.MaximumIsLargestKnown` | nav2_costmap_2d/src/costmap_layer.cpp:110-166 | merging by maximum gives the larger known cost, with unknown below all; the second form leaves unknown cells unknown |
| `CostmapLayers.MergeIsPromised` | nav2_costmap_2d/src/costmap_layer.cpp:110-213 | an overwriting layer puts its cost wherever it knows one, a true overwrite everywhere; the two maximum forms take the larger of two known costs and differ in an unknown master cell only |
| `CostmapLayers.UpdateCosts` | nav2_costmap_2d/src/costmap_layer.cpp:110-213 | every cell of the window becomes what the way of merging promises for the layer's cost and the one it held, and no other cell changes |
| `Layered.Touch` | nav2_costmap_2d/src/costmap_layer.cpp:46-54 | the bounds hold the point and everything they held |
| `Layered.GatherBounds` | nav2_costmap_2d/src/layered_costmap.cpp:158-196 | the bounds are the smallest that hold every point any plugin or filter touched; there are none when nothing was touched |
| `Layered.WindowCovers` | nav2_costmap_2d/src/layered_costmap.cpp:198-205 | the cell of any coordinate within the bounds is in the window, although the upper edge is mapped outside |
| `Layered.WindowIsExact` | nav2_costmap_2d/src/layered_costmap.cpp:198-205 | between ends on the map, the window holds exactly the cells the bounds meet |
| `Layered.UntouchedIsRefused` | nav2_costmap_2d/src/layered_costmap.cpp:198-213 | with nothing touched the update is refused exactly if some side of the map has more than two cells |
| `Layered.OnlyWindowChanges` | nav2_costmap_2d/src/layered_costmap.cpp:158-213 | a cell outside the window, or any cell when the window is refused, looks the same in every layer |
| `Layered.MaximumsInAnyOrder` | nav2_costmap_2d/src/layered_costmap.cpp:218-222 | plugins that merge by maximum give the same cell in any order |
| `Layered.ReplacedIsForgotten` | nav2_costmap_2d/src/layered_costmap.cpp:217-249 | a layer that overwrites a cell makes the merge forget every layer before it and the value it started from |
| `Layered.LastPluginDecides` | nav2_costmap_2d/src/layered_costmap.cpp:217-249 | without filters, a cell that the last plugin overwrites holds the cost of that plugin |
| `Layered.LastFilterDecides` | nav2_costmap_2d/src/layered_costmap.cpp:233-249 | a cell that the last filter overwrites holds the cost of that filter, whatever the plugins hold |
| `Layered.SilentFilters` | nav2_costmap_2d/src/layered_costmap.cpp:233-249 | filters with nothing to say at a cell leave the merge of the plugins, and silent plugins the default |
| `Layered.MergeLayers` | nav2_costmap_2d/src/layered_costmap.cpp:218-222 | each cell of the window is the fold of all layers over what it held |
| `Layered.PluginPass` | nav2_costmap_2d/src/layered_costmap.cpp:217-231 | in the window the grid is the fold of all plugins over the default, outside it is unchanged |
| `Layered.FilterPass` | nav2_costmap_2d/src/layered_costmap.cpp:233-249 | in the window the grid is the fold of all filters over the plugin grid, outside it is unchanged |
| `Layered.FiltersStaySynced` | nav2_costmap_2d/src/layered_costmap.cpp:233-249 | recomputing only the window keeps the master grid equal to the filters over the plugin grid: filter effects never accumulate |
| `Layered.LayeredCostmap.constructor` | nav2_costmap_2d/src/layered_costmap.cpp:55-82 | a new map has the given geometry, every cell holds unknown or free as unknown space is tracked or not, and it is in sync with layers that have nothing to say |
| `Layered.LayeredCostmap.Recompute` | nav2_costmap_2d/src/layered_costmap.cpp:215-250 | both branches bring the grids in sync with the layers as they are and change nothing outside the window |
| `Layered.LayeredCostmap.UpdateMap` | nav2_costmap_2d/src/layered_costmap.cpp:133-258 | if the grid was in sync and the layers touched what they changed, it is in sync with the layers as they are, and changed only in the reported window, which is that of the smallest bounds around the touched points unless these are refused |
| `Layered.Run` | nav2_costmap_2d/src/layered_costmap.cpp:133-258 | over any run of updates every master cell equals the filters applied to the fold of all plugins over the default |
| `Replication.Publisher.UpdateBounds` | nav2_costmap_2d/include/nav2_costmap_2d/costmap_2d_publisher.hpp:115-121 | the dirty box holds every cell it held and every cell reported |
| `Replication.JoinIsSmallest` | nav2_costmap_2d/include/nav2_costmap_2d/costmap_2d_publisher.hpp:115-121 | the joined box lies inside every window around both, and joining a window to a clean box gives the window |
| `Replication.Publisher.PrepareCostmap` | nav2_costmap_2d/src/costmap_2d_publisher.cpp:160-189 | the message has the size, the resolution in single precision, the cells and the origin of the map, the latter recovered exactly from the centre of the first cell |
| `Replication.ReplicaShows` | nav2_costmap_2d/src/costmap_2d_publisher.cpp:160-189 | a replica is a map of the same size, origin and cells, with the resolution in single precision |
| `Replication.Publisher.CreateCostmapUpdateMsg` | nav2_costmap_2d/src/costmap_2d_publisher.cpp:212-231 | the message carries the cells of the dirty box, each at its place |
| `Replication.Publisher.PublishCostmap` | nav2_costmap_2d/src/costmap_2d_publisher.cpp:233-265 | the whole map exactly if origin, size or resolution differs from what was last published or always, else the dirty box unless it is empty; the box is clean afterwards and the geometry saved |
| `Replication.Subscriber.ProcessCurrentCostmapMsg` | nav2_costmap_2d/src/costmap_subscriber.cpp:124-138 | whatever map was held, it becomes the pending one |
| `Replication.Subscriber.CostmapCallback` | nav2_costmap_2d/src/costmap_subscriber.cpp:71-85 | the map the subscriber would return is the one just received |
| `Replication.Subscriber.CostmapUpdateCallback` | nav2_costmap_2d/src/costmap_subscriber.cpp:87-122 | the update is written over the map the subscriber would return; it is ignored before the first map and outside the map |
| `Replication.Subscriber.GetCostmap` | nav2_costmap_2d/src/costmap_subscriber.cpp:60-69 | the latest map, or an error before the first; reading changes nothing a reader can see |
| `Replication.UpdateIsExact` | nav2_costmap_2d/src/costmap_subscriber.cpp:109-118 | patching a map with a box of another gives the other exactly when they agreed outside the box |
| `Replication.PatchIsUnique` | nav2_costmap_2d/src/costmap_subscriber.cpp:109-118 | the row copies have one possible result |
| `Replication.IncrementIsExact` | nav2_costmap_2d/src/costmap_2d_publisher.cpp:233-265 | a publication that does not send the whole map brings the replica up to date exactly when no cell outside the dirty box changed since the last one |
| `Replication.MovingAwayAndBackIsMissed` | nav2_costmap_2d/src/costmap_2d_publisher.cpp:235-241 | a concrete window that moves one cell away and back between publications: the geometry test sees no change, the dirty box after both cycles misses a lost cell, and the update of that box leaves the replica wrong |
| `Replication.FinalOfOneMore` | nav2_costmap_2d/src/costmap_subscriber.cpp:71-122 | sending one more message applies it to what the subscriber will show when all earlier ones have arrived |
| `Replication.CoveredAfterCycle` | nav2_costmap_2d/include/nav2_costmap_2d/costmap_2d_publisher.hpp:115-121 | a box that covers all changes so far, joined with the window of a cycle, covers those of the cycle too |
| `Replication.LoopIsLegal` | nav2_costmap_2d/src/costmap_2d_ros.cpp:512-547 | when cycles change only what they report, and a changed geometry is still changed when published, every publication finds the dirty box around everything that changed |
| `Replication.LastPublication` | nav2_costmap_2d/src/costmap_2d_ros.cpp:512-547 | the map last published is the one of the last cycle before the last publication |
| `Replication.UpdateCycle` | nav2_costmap_2d/src/costmap_2d_ros.cpp:519-526 | a cycle joins its window to the dirty box and keeps it around everything that changed since the last publication |
| `Replication.PublishStep` | nav2_costmap_2d/src/costmap_2d_ros.cpp:532-545 | after a publication the subscriber will show the current map once everything sent has arrived |
| `Replication.Run` | nav2_costmap_2d/src/costmap_2d_ros.cpp:512-547 | over any interleaving of cycles, publications, deliveries and reads in which each incremental publication finds the dirty box around all changes, every read returns nothing or one whole published map, and an emptied channel leaves a map of the size, origin and cells last published |
| `Mirror.Broadcast` | nav2_costmap_2d/src/costmap_2d_ros.cpp:532-545 | after a publication and delivery the subscriber shows size, origin and cells of the current map |
| `Mirror.Advance` | nav2_costmap_2d/src/costmap_2d_ros.cpp:519-526 | the update of the layered map and the report of its window keep publisher and subscriber in step |
| `Mirror.Turn` | nav2_costmap_2d/src/costmap_2d_ros.cpp:512-547 | one turn of the loop publishes exactly when that is due and the map was ever updated, and the subscriber then shows the map |
| `Mirror.MapUpdateLoop` | nav2_costmap_2d/src/costmap_2d_ros.cpp:499-550 | over any run of the loop, after a publication the subscriber shows the size and origin of the master grid, and each cell is the filters applied to the merge of all current plugins |
| `RayCrossing.IsPointInside` | nav2_collision_monitor/src/polygon.cpp:513-543 | the loop answers whether the ray crosses an odd number of edges of the closed polygon; no division by zero |
| `RayCrossing.GetPointsInside` | nav2_collision_monitor/src/polygon.cpp:229-238 | the number of points inside |
| `CollisionTime.CountOfBoth` | nav2_collision_monitor/src/polygon.cpp:229-238 | counting two lists of points one after the other adds the two counts |
| `RayCrossing.SameIntersection` | nav2_collision_monitor/src/polygon.cpp:530-535 | an edge is met at the same point from either end |
| `RayCrossing.InsideIsAboutTheCurve` | nav2_collision_monitor/src/polygon.cpp:513-543 | rotating or reversing the vertex list leaves the answer alone |
| `RayCrossing.InsideOfCut` | nav2_collision_monitor/src/polygon.cpp:513-543 | cutting any polygon along any diagonal makes the answer the exclusive or of the two parts |
| `RayCrossing.StraddlesEvenly` | nav2_collision_monitor/src/polygon.cpp:526-530 | every horizontal line straddles an even number of edges |
| `RayCrossing.NeverInsideBeyondTheBox` | nav2_collision_monitor/src/polygon.cpp:513-543 | a point on or beyond the bounding box, on the sides where the box is open, is never inside |
| `RayCrossing.NeverInsideBeyondALine` | nav2_collision_monitor/src/polygon.cpp:513-543 | a point that any line separates from all vertices is never inside |
| `RayCrossing.RectangleExactly` | nav2_collision_monitor/src/polygon.cpp:513-543 | the answer for an upright rectangle, left and upper sides included |
| `ConvexPolygon.CrossesFromASide` | nav2_collision_monitor/src/polygon.cpp:526-538 | the ray crosses an edge that goes up from its left and one that goes down from its right, and no other |
| `ConvexPolygon.UpOnce` | nav2_collision_monitor/src/polygon.cpp:526-530 | at most one edge of a strictly convex polygon goes up through a horizontal line |
| `ConvexPolygon.BeyondAnEdge` | nav2_collision_monitor/src/polygon.cpp:513-543 | a point to the right of an edge of a strictly convex polygon is not inside |
| `ConvexPolygon.ConvexExactly` | nav2_collision_monitor/src/polygon.cpp:513-543 | for every strictly convex polygon and every point, on the boundary or not, the answer is half-open membership: the horizontal line meets the polygon, the edge going up has the point strictly on its left and the edge going down has it on its left or on itself |
| `ConvexPolygon.ConvexOffBoundary` | nav2_collision_monitor/src/polygon.cpp:513-543 | off the boundary the answer is whether the point lies to the left of every edge |
| `ConvexPolygon.ClockwiseExactly` | nav2_collision_monitor/src/polygon.cpp:513-543 | the same membership when the vertices are listed clockwise |
| `CollisionTime.TransformPoints` | nav2_collision_monitor/src/kinematics.cpp:22-42 | every point becomes what it looks like from the pose |
| `CollisionTime.SeenUndone` | nav2_collision_monitor/src/kinematics.cpp:27-41 | rotating back and adding the pose gives the point again |
| `CollisionTime.SeenDistance` | nav2_collision_monitor/src/kinematics.cpp:37-40 | the distance of a point does not depend on the heading |
| `CollisionTime.ProjectState` | nav2_collision_monitor/src/kinematics.cpp:44-68 | pose and velocity after one step |
| `CollisionTime.SpeedIsConstant` | nav2_collision_monitor/src/kinematics.cpp:44-68 | the simulated speed and turning rate never change |
| `CollisionTime.StepsAreEven` | nav2_collision_monitor/src/kinematics.cpp:50-55 | every step covers the same distance |
| `CollisionTime.CommandInOwnFrame` | nav2_collision_monitor/src/kinematics.cpp:56-67 | seen in the simulated robot's own frame its velocity is always the commanded one |
| `CollisionTime.StraightAhead` | nav2_collision_monitor/src/kinematics.cpp:44-68 | without turning the robot is found at velocity times time |
| `CollisionTime.Heading` | nav2_collision_monitor/src/kinematics.cpp:44-68 | after any number of steps, with addition formulas for sine and cosine, the velocity is the command turned by the heading, and the heading is turning rate times time |
| `CollisionTime.StraightHits` | nav2_collision_monitor/src/polygon.cpp:240-268 | without turning, an instant is a hit exactly if enough points, moved back by velocity times the time of the next instant, lie in the zone |
| `CollisionTime.CirclePointsInside` | nav2_collision_monitor/src/circle.cpp:61-71 | the number of points strictly within the radius |
| `CollisionTime.CircleIgnoresHeading` | nav2_collision_monitor/src/circle.cpp:61-71 | seen from a pose, a circle counts the points strictly within its radius of the position, whatever the heading |
| `CollisionTime.GetCollisionTime` | nav2_collision_monitor/src/polygon.cpp:240-268 | ends for every positive step, with the first simulated instant up to the horizon at which enough points are in the zone, or -1 exactly when there is none |
| `CollisionTime.MorePointsHitNoLater` | nav2_collision_monitor/src/polygon.cpp:240-268 | further obstacle points, anywhere in the list, never put the first hit off |
| `MostRestrictive.BestIsSlowest` | nav2_collision_monitor/src/collision_monitor_node.cpp:459-483 | the choice is the command or a candidate, and none of them is slower |
| `MostRestrictive.NormIgnoresOrder` | nav2_collision_monitor/src/collision_monitor_node.cpp:459-483 | the speed of the choice does not depend on the order of candidates |
| `MostRestrictive.OrderMattersExactly` | nav2_collision_monitor/src/collision_monitor_node.cpp:518-547 | the velocity chosen does not depend on the order exactly when all slowest candidates agree or none is slower than the command |
| `MostRestrictive.OrderCanMatter` | nav2_collision_monitor/src/collision_monitor_node.cpp:518-547 | a slowdown and a limit that are equally slow and differ: the first one listed wins |
| `Monitor.CollectPoints` | nav2_collision_monitor/src/collision_monitor_node.cpp:415-430 | a source that must be fresh and is not is found; otherwise every zone counts as many of the points as of those of all enabled sources together |
| `Monitor.EverySourceCounts` | nav2_collision_monitor/src/collision_monitor_node.cpp:415-430 | the count of a zone over all points is the sum of its counts over the enabled sources |
| `Monitor.StopAskedExactly` | nav2_collision_monitor/src/collision_monitor_node.cpp:415-483 | some stop zone says stop exactly if one that is enabled and has a shape holds at least its number of points, summed over the enabled sources |
| `Monitor.ProcessStopSlowdownLimit` | nav2_collision_monitor/src/collision_monitor_node.cpp:499-552 | the velocity becomes the slower of what it was and what the zone asks for, and the action is stop exactly when the zone says so |
| `Monitor.ProcessApproach` | nav2_collision_monitor/src/collision_monitor_node.cpp:554-581 | the velocity becomes the slower of what it was and the command scaled by the time left |
| `Monitor.LimitIsKept` | nav2_collision_monitor/src/collision_monitor_node.cpp:528-539 | a limit caps both speeds, keeps the direction and never speeds anything up |
| `Monitor.ApproachScalesDown` | nav2_collision_monitor/src/collision_monitor_node.cpp:564-569 | an approach zone scales the command by a ratio between zero and one |
| `Monitor.LimitIsReached` | nav2_collision_monitor/src/collision_monitor_node.cpp:528-539 | a limit leaves a speed at or below it alone and brings a higher one to it exactly, and likewise the turning rate |
| `Monitor.ZoneAsks` | nav2_collision_monitor/src/collision_monitor_node.cpp:499-552 | a zone that is enabled and has a shape asks exactly when enough points are in it: zero for a stop zone, the command times the ratio for a slowdown zone, the limited command for a limit zone |
| `Monitor.ApproachAsks` | nav2_collision_monitor/src/collision_monitor_node.cpp:554-581 | an approach zone whose first hit is at the `k`-th step asks for the command scaled by the part of its time that `k` steps are |
| `Monitor.DecideByZones` | nav2_collision_monitor/src/collision_monitor_node.cpp:459-483 | although the loop is left at the first stop, the velocity is the slowest over all zones, the action is stop exactly when some stop zone in the list says so, and it bears the kind and name of a zone that asks for that velocity |
| `Monitor.Decide` | nav2_collision_monitor/src/collision_monitor_node.cpp:397-483 | zero on an invalid source or any triggered stop zone, otherwise the slowest velocity asked for, under the kind and name of the zone that asks for it; stop whenever a stop zone holds enough points of all enabled sources |
| `Monitor.RequiredExactly` | nav2_collision_monitor/src/collision_monitor_node.cpp:397-483 | the robot is to stand still if an enabled source with a timeout delivered nothing valid; otherwise the velocity is the command or that of some zone, and neither the command nor any zone asks for a slower one |
| `Monitor.MoreSourcesNeverFaster` | nav2_collision_monitor/src/collision_monitor_node.cpp:415-483 | a further source, enabled or not and anywhere in the list, never lets the robot go faster |
| `Monitor.ZoneOrderIsIrrelevant` | nav2_collision_monitor/src/collision_monitor_node.cpp:459-483 | reordering the zones never changes the speed of the outcome |
| `Monitor.MoreObstaclesNeverFaster` | nav2_collision_monitor/src/collision_monitor_node.cpp:459-483 | seeing more obstacle points, wherever they stand in the list, never lets the robot go faster |
| `CommandLog.RobotKnows` | nav2_collision_monitor/src/collision_monitor_node.cpp:204-226 | after every command, published or not, the last velocity published is the one required now |
| `CommandLog.SilenceLasts` | nav2_collision_monitor/src/collision_monitor_node.cpp:204-226 | while the clock does not run backwards, silence lasts until the robot is to move again |
| `CommandLog.SilentExactly` | nav2_collision_monitor/src/collision_monitor_node.cpp:204-226 | a command is not sent exactly if it belongs to a stretch of standing still that began more than the timeout before it |
| `Monitor.CollisionMonitor.constructor` | nav2_collision_monitor/src/collision_monitor_node.cpp:31-36 | a new node has processed nothing |
| `Monitor.CollisionMonitor.OnActivate` | nav2_collision_monitor/src/collision_monitor_node.cpp:101-127 | the node becomes active and keeps what it remembers |
| `Monitor.CollisionMonitor.OnDeactivate` | nav2_collision_monitor/src/collision_monitor_node.cpp:130-139 | the node forgets its last action, so the next stop is published again |
| `Monitor.CollisionMonitor.PublishVelocity` | nav2_collision_monitor/src/collision_monitor_node.cpp:204-226 | published exactly when due: always when moving, at the first command of a stretch at rest, and until the timeout after it |
| `Monitor.CollisionMonitor.Process` | nav2_collision_monitor/src/collision_monitor_node.cpp:397-497 | nothing while inactive; otherwise the required velocity is decided, published when due, and is the robot's last instruction |
| `Footprint.DistanceToLineIsNearest` | nav2_costmap_2d/src/costmap_math.cpp:34-59 | the distance is reached on the segment and nowhere undercut; it is a number exactly when the segment has length |
| `Footprint.EndsAreFarthest` | nav2_costmap_2d/src/footprint.cpp:53-61 | no point of an edge is farther away than both its ends |
| `Footprint.VisitEdge` | nav2_costmap_2d/src/footprint.cpp:53-61 | the least and a reached largest distance of one edge, whether or not it has length |
| `Footprint.CalculateMinAndMaxDistances` | nav2_costmap_2d/src/footprint.cpp:43-72 | every point of every edge, the closing one included, lies between the two radii, and both are reached; fewer than three vertices give the largest number and zero |

## Left out

- NearestObstacle.ExactExactlyWhenLinked: where a cell has two nearest obstacles the scan order decides between them; one direction without that condition is `LinkedIsExact`, a necessary condition is `ExactIsTouching`.
- Costmap.Costmap2D.CopyWindow: a window whose end lies before its start is excluded; its size wraps around in the source and the copy would leave both buffers.
- InflationPlugin.CostMarks: compares squared distances, which is the source's comparison for an inscribed radius that is not negative; the exponential is a parameter.
- Layered.LayeredCostmap.UpdateMap: for a map that does not roll and layers that merge cell by cell; inflation looks at other cells, and the roll itself is in `RollingWindow.dfy`.
- Layered.LayeredCostmap.constructor: the map is sized at once, `resizeMap` is not modelled.
- Mirror.MapUpdateLoop: the same map and layers.
- Replication.Publisher.PublishCostmap: when only the dirty box is sent it must fit the map, which the update cycle keeps unless the map was resized and resized back in between.
- Replication.Run: an incremental publication finds all changes in its dirty box; `IncrementIsExact` says the replica is wrong otherwise, and `LoopIsLegal` when the loop sees to it.
- Monitor.Decide: a zone is given with the shape it has for the command, `updatePolygon` is not modelled.
- Rounding, overflow and not-a-number: reals and unbounded integers instead; the two places where the source relies on a comparison with not-a-number being false are modelled by an absent value.
- Locks and threads: each callback is one atomic step.
- `updateWithAddition`: no layer of the repository merges with it.
- Extra bounds, `resetLayers` and the services that clear layers: they change the master grid outside the update cycle.
- Subscribers that join late, lost messages and reordering between the two topics: delivery is one ordered channel.
- The occupancy grid topic and its cost translation table: one branch settles them.
- The bounds an inflation layer reports: its `updateBounds` only widens what others report.
- A second `onInitialize` of the inflation layer: one initialisation is followed by events.
- Text of notifications, visualisation and lifecycle plumbing.
- Denoise layer, footprint collision checker, planners, controllers, localisation and behaviours.
