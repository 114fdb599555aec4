# Verified model of the Go2 navigation kernel

The native navigation kernel plans on occupancy grids, accumulates a sparse
voxel map, localizes scans against it, corrects drift with a pose graph, and
executes goals as bounded velocity commands. This project models that kernel in
Dafny and proves what it is for: planned paths are optimal and clear of
obstacles, the map keeps its counters and survives persistence, scan matching
through a spatial hash is exact, pose corrections do what they publish, and the
concurrent parts (goal lifecycle, motion lease) keep their promises under every
interleaving, or fail them exactly where stated.

Numbers are exact reals. `math.sqrt` is a parameter with
`sqrt(x) >= 0` and `sqrt(x) * sqrt(x) == x` for `x >= 0`; sine and cosine are
parameters that satisfy the Pythagorean, addition and 360-degree laws; `atan2`
is a parameter that, where it matters, undoes a scaled sine and cosine; the
content hash is an uninterpreted function of the payload. Python's rounding
(half to even), floor division by positive numbers and angle wrapping are
written out.

How the modules follow the program:

- planning: `SearchGraph`, `CellSearch`, `Planner` (A*), `Bresenham`,
  `PathGeometry`, `Clearance`, `CorridorLaws`, `PlannedPaths`, `SafeGoal`, `GoalsInMetres`
- costmaps: `Wavefront`, `WindowDistance`, `Octile`, `DistanceCosts`,
  `Dilation`, `MetricDisc` (discs in metres), `Costmap`, `CostmapInMetres`
- voxel map: `VoxelContent` (what one frame does), `VoxelMap` (the object),
  `VoxelObservation` (what a frame sees), `VoxelRuns`, `VoxelPersistence`,
  `VoxelGrid`, and `GlobalRoute`, `Polyline`, `RouteWaypoints`, `DrivenRoute`,
  `MapWindow`, `RouteLaws` for the routes planned on it
- frontiers and patrols: `Flood`, `Frontier`, `FrontierLaws`, `CoverageRoute`,
  `Patrol`, `PatrolEvaluation`, `PatrolLaws`
- localization: `Poses`, `ScanScore`, `ScanSearch`, `LoopClosure`, `ScanLaws`,
  `PoseRelaxation`, `RelaxationLaws`, `PoseGraph`, `OptimizerLaws`,
  `PoseCorrection`, `PoseTracker`, `TrackerRuns`, `UpdateLaws`, `LoopEdgeLaws`
- execution: `GoalLifecycle`, `GoalOutcomes`, `MotionLease` (all streams
  interleaved), `LeaseExclusion`, `VelocityStream` (one of them as it is
  written), `Ramp`, `TerrainController`, `PatrolController`,
  `ExplorationController`

Objects whose methods update fields are classes whose methods are proved
against specification functions or step relations; the theorems are then lemmas
about those functions, relations and their runs. The two concurrent parts are
state machines whose steps run from one await, or one access to shared state,
to the next; their classes perform the same steps on the object's fields.

## What turned out to be conditional

- Simplification keeps all cells only on grids coarser than half a micrometre,
  because headings are rounded to six digits (`PathGeometry`).
- A generated coverage route passes its own evaluator only if no odd number of
  one-waypoint rows separates two longer rows; the condition is stated on the
  free lattice cells and the waypoint limit (`CoverageRoute`).
- Not every exit of a one-shot velocity stream sends all its zero frames
  (`MotionLease.ExitPaths` says exactly when, with a run for each cause), and the
  idle event excludes a second stream only as long as no wait times out and no
  two callers wait at once (`LeaseExclusion`); the generation check always does.
- A goal may be finished twice. Starting one is safe if and only if the previous
  task is done and no cancel call still has to finish it; a cancel call that is
  still stopping the robot does no harm (`GoalLifecycle.StartIsSafeExactly`).
- A goal may also never be finished: exactly when the stop of its error handler
  raises and no cancel call finishes it afterwards (`UnfinishedExactly`).
- `set_relative_goal` looks at the task before it awaits the sensors, and
  `set_absolute_goal` never looks at it. So set calls that do not overlap are
  exclusive only if absolute ones begin while no task is live; any goal can be
  overtaken by a later absolute call, and without one exactly when another set
  call was under way at its start (`OvertakenExactly`, `EntryRisksExactly`).
- The costs of a costmap use the octile distance, not the Euclidean one.

## Model

| member | source | states |
|---|---|---|
| `Planner.AstarPath` | robot_brain/navigation/planner.py:10-56 | a negative weight is the error; otherwise no path is returned exactly when an end lies off the grid, the goal is blocked or no tour leads there, and a returned path is the simplification of a best tour: the sum of its step lengths, plus a hundredth of the weight times each step's length times the cost table's entry for the cell it enters, is least among all tours |
| `Planner.PathCostIsToll` | robot_brain/navigation/planner.py:48 | what a path costs the search is that toll, summed over the cost table alone |
| `Planner.CheapestIsBest` | robot_brain/navigation/planner.py:39-55 | a cheapest path of the search is a best tour |
| `Planner.CostlierTwinLoses` | robot_brain/navigation/planner.py:48 | of two tours of the same length the one over higher costs is never returned when the weight is positive |
| `Planner.PlanningGraphConsistent` | robot_brain/navigation/planner.py:39-55 | with nonnegative traversal costs the straight-line estimate never drops by more than the cost of a step, for every grid, weight and goal |
| `CellSearch.SearchCells` | robot_brain/navigation/planner.py:26-56 | the search without a closed set terminates; it returns a path of least total cost, and none exactly when the goal is unreachable; however often cells are queued again, it pushes at most eight entries for each cell |
| `CellSearch.Expand` | robot_brain/navigation/planner.py:39-55 | expanding a fresh entry settles the cell against all eight neighbours with at most eight pushes, expanding a stale one changes nothing |
| `CellSearch.Reconstruct` | robot_brain/navigation/planner.py:32-38 | following the parents back from the goal ends at the start and gives a path whose cost is the recorded one |
| `SearchGraph.StalePop` | robot_brain/navigation/planner.py:30-50 | popping an entry whose cell was already popped keeps the whole search invariant, so re-expansion is harmless |
| `SearchGraph.FreshPop` | robot_brain/navigation/planner.py:30-50 | the first pop of a cell is at its final cost |
| `SearchGraph.GoalCostIsLeast` | robot_brain/navigation/planner.py:31-38 | when the goal is popped no path to it is cheaper than its recorded cost, although the start was queued with priority zero |
| `SearchGraph.ExhaustedMeansUnreachable` | robot_brain/navigation/planner.py:30-56 | an empty queue means that no legal path leads to the goal |
| `SearchGraph.ImprovableIsOpen` | robot_brain/navigation/planner.py:48-52 | a step can only improve cells that were never popped |
| `Bresenham.Line` | robot_brain/navigation/grid.py:124-142 | the error-term loop returns exactly the cells of the closed-form line, for every pair of end cells |
| `Bresenham.LineCellsAreLine` | robot_brain/navigation/planner.py:188-204 | the line starts and ends at the given cells, has one more than the longer axis distance of them, moves to a neighbour each time and stays in the bounding box |
| `Bresenham.LineWithinHalfCell` | robot_brain/navigation/planner.py:188-204 | cell i of a line lies within half a cell of the ideal segment |
| `Bresenham.ErrorIsDeviation` | robot_brain/navigation/planner.py:191-204 | the error term after i rounds is exactly the deviation of the current cell from the ideal segment |
| `Bresenham.TrackInvariant` | robot_brain/navigation/planner.py:191-204 | after i rounds the line is still in the bounding box and within half a cell of the ideal segment, and it has reached the end exactly in the last round |
| `Dilation.DilatedExact` | robot_brain/navigation/grid.py:81-90 | the nested offset loops dilate by exactly the disc, cut to the window |
| `PathGeometry.Simplify` | robot_brain/navigation/planner.py:168-181 | simplification keeps the two ends and exactly the points where the rounded heading changes |
| `PathGeometry.SimplifiedCorridor` | robot_brain/navigation/planner.py:114-141 | re-rasterising a simplified walk of adjacent cells with width zero visits exactly the cells of the walk |
| `PathGeometry.SimplifyLosesNoCellsExactly` | robot_brain/navigation/planner.py:168-181 | on every grid, simplification loses no cell of any walk if and only if the resolution exceeds half a micrometre, the point at which the six-digit rounding flattens headings, or the grid is too small for a step |
| `Clearance.CorridorCells` | robot_brain/navigation/planner.py:114-141 | negative dimensions are the error; otherwise the corridor is exactly the cells within the rounded half width of a rasterised segment inside the length limit |
| `CorridorLaws.CorridorLength` | robot_brain/navigation/planner.py:126-137 | the corridor ends before the first segment that, added to the lengths of the earlier ones on the map, exceeds the limit |
| `CorridorLaws.CorridorInMetres` | robot_brain/navigation/planner.py:114-141 | every cell within half the robot's width of the path is in the corridor, and none a whole cell further away |
| `Clearance.MinimumClearance` | robot_brain/navigation/planner.py:87-111 | no path gives no clearance; otherwise the result is the least distance from a corridor cell to an obstacle other than the start cell, capped by the search limit |
| `PlannedPaths.PlannedPathClearance` | robot_brain/navigation/native_go2.py:676-697 | the clearance measured on a path planned on the same grid is at least one resolution or the search limit, so the executor's zero-clearance branch is unreachable |
| `PlannedPaths.PlannedCellsClear` | robot_brain/navigation/planner.py:39-47 | every cell of a planned path is free or the start |
| `SafeGoal.FindNearestSafeGoal` | robot_brain/navigation/planner.py:59-84 | no goal exactly when no cell of the search disc has the clearance; otherwise the centre of the nearest such cell, ties in cell order |
| `GoalsInMetres.SafeGoalInMetres` | robot_brain/navigation/planner.py:59-84 | the substitute keeps the clearance in metres from everything blocked, lies less than a cell beyond the search radius, and no cell of that radius that is clear with a cell to spare is nearer |
| `GoalsInMetres.NoSafeGoal` | robot_brain/navigation/planner.py:80-81 | when none is found the search radius holds no such cell |
| `Grid.CellCentreRoundTrip` | robot_brain/navigation/grid.py:26-38 | a cell's centre maps back to that cell when it is inside the grid and to nothing otherwise |
| `DistanceCosts.DistanceCostValues` | robot_brain/navigation/grid.py:145-182 | for every size, obstacle set and radius the table holds the closed form: zero at obstacles and beyond the radius, else the clamped rounded fall-off of the octile distance to the nearest obstacle on the grid |
| `DistanceCosts.CostMeans` | robot_brain/navigation/grid.py:171-182 | off the obstacles and in range a cost is the whole number nearest to 99 less its share of the way out, between 1 and 99; elsewhere it is 0 |
| `DistanceCosts.CostFalls` | robot_brain/navigation/grid.py:171-182 | a cost never rises with the distance |
| `DistanceCosts.PopNext` | robot_brain/navigation/grid.py:163-181 | one iteration drops a stale entry or finishes a cell at its true distance |
| `Wavefront.NothingLost` | robot_brain/navigation/grid.py:163-181 | lazy deletion and pruning at the radius lose nothing: a cell in range that is not finished still has a live entry on the way to it, no dearer than the cell itself |
| `Wavefront.Finish` | robot_brain/navigation/grid.py:163-170 | the least live entry carries the true distance of its cell |
| `Wavefront.Exhausted` | robot_brain/navigation/grid.py:163-182 | when the queue is empty exactly the cells in range are finished |
| `WindowDistance.WindowMetricHolds` | robot_brain/navigation/grid.py:145-182 | the distance to the nearest obstacle in a rectangular window is what the relaxation computes, for any metric that can be walked a step at a time |
| `Octile.OctileIsWalkMetric` | robot_brain/navigation/grid.py:158-162 | the octile distance is walked exactly by unit and diagonal steps, so it and not the Euclidean distance is what the costs use |
| `Costmap.CostmapFromPointcloud` | robot_brain/navigation/grid.py:50-103 | an untrusted frame or bad geometry is the error; otherwise hits, their exact disc dilation, the free cells of the rays and the costs are as specified, free and occupied are disjoint, free cells are on the grid |
| `CostmapInMetres.SensorIsOrigin` | robot_brain/navigation/grid.py:50-79 | the cell the rays start from holds the sensor's origin |
| `CostmapInMetres.MapCovers` | robot_brain/navigation/grid.py:50-66 | every point within half the map's size of the sensor is on the map |
| `CostmapInMetres.HitsInWorld` | robot_brain/navigation/grid.py:67-75 | a cell is hit exactly when a point of the band lies in its square |
| `CostmapInMetres.FreeInWorld` | robot_brain/navigation/grid.py:76-90 | a cell is free exactly when it is not occupied and a line from the sensor's cell to a hit passes it before it gets there |
| `CostmapInMetres.OccupiedInMetres` | robot_brain/navigation/grid.py:81-90 | cells within the robot's radius of a hit are occupied, and none a whole cell further away |
| `Costmap.WithObstacleDistanceCosts` | robot_brain/navigation/grid.py:106-121 | only the costs change, they are the closed form for the grid's own obstacles, and they are nonnegative |
| `Costmap.CastRays` | robot_brain/navigation/grid.py:67-79 | hits are the cells of the points in the band and free cells are those of the rays before their hits, never off the grid |
| `GlobalRoute.UnblockedIsProven` | robot_brain/navigation/native_go2.py:977-1013 | a cell is unblocked in the known-free-only grid exactly when it is the start or a known-free cell whose disc is free or that lies in the start's disc; what the disc is in metres say the next two |
| `GlobalRoute.UnblockedIsClear` | robot_brain/navigation/native_go2.py:977-1013 | around an unblocked cell that is not within a radius and a cell of the start, every cell within the robot's radius is free |
| `GlobalRoute.ClearIsUnblocked` | robot_brain/navigation/native_go2.py:977-1013 | and a free cell with a radius and a cell of free ground around it is unblocked |
| `MetricDisc.DiscInMetres` | robot_brain/navigation/native_go2.py:981-998 | a disc of rounded-up cells holds every cell whose centre is within the length, and none a whole cell further away |
| `GlobalRoute.RouteStaysProven` | robot_brain/navigation/native_go2.py:406-443 | every cell after the start of a path planned on the safe grid is proven free on the original grid |
| `GlobalRoute.ProvenWalkIsPath` | robot_brain/navigation/native_go2.py:977-1013 | conversely every walk over the start and proven cells whose diagonal steps pass only such corners is a legal path of the safe grid |
| `Polyline.ResamplePolyline` | robot_brain/navigation/native_go2.py:1016-1031 | a nonpositive limit is the error; otherwise every vertex is kept in order, the pieces divide each segment evenly, no gap exceeds the limit, and no segment gets more pieces than that takes |
| `RouteWaypoints.WaypointsProven` | robot_brain/navigation/native_go2.py:422-432 | every waypoint of the simplified and resampled path lies in the start cell or a proven one, also where a piece runs exactly through the corner of two cells |
| `RouteWaypoints.PlanOnMap` | robot_brain/navigation/native_go2.py:422-432 | restricting, planning and resampling together: a route exactly when the goal is on the grid, unblocked and reachable over proven cells; it is the resampling of a simplified cheapest path, runs from the centre of the start cell to that of the goal cell, and has no gap above 1.5 m |
| `DrivenRoute.PlanGlobalRoute` | robot_brain/navigation/native_go2.py:406-443 | the whole function from the voxel map on: no route exactly without localization, beyond 30 m, or when proven cells do not connect the two ends; otherwise the waypoints are the route after its first point and the exact target unless the route ends within 5 cm of it, seen from the odometry frame |
| `DrivenRoute.DrivenRouteIsProven` | robot_brain/navigation/native_go2.py:430-443 | every waypoint that is driven, the appended target included, lies in the start cell or a proven one, and the last is within 5 cm of the goal |
| `DrivenRoute.DrivenRouteAvoidsVoxels` | robot_brain/navigation/native_go2.py:412-443 | in terms of the map: outside the start cell every driven waypoint stands in a column that rays have crossed, with no stored obstacle voxel of the window within the inflation radius |
| `DrivenRoute.DrivenRouteInMetres` | robot_brain/navigation/native_go2.py:406-443 | in metres: around every driven waypoint outside the start's own column no stored voxel of the window, between 5 cm and 1.20 m high, stands within the robot's radius; and a radius and a cell away from the start every column within that radius was seen free |
| `RouteLaws.DrivenRouteIsBestTour` | robot_brain/navigation/native_go2.py:421-429 | the route follows a best tour over the proven cells at weight 3, with costs that reach a metre from the obstacles |
| `RouteLaws.CostInMetres` | robot_brain/navigation/grid.py:106-121 | a cell has a cost when an obstacle is within the range, only if one is less than a cell further away, and never more than 99 |
| `RouteLaws.WaypointsAre` | robot_brain/navigation/native_go2.py:430-441 | the route without its first point is driven, and after it the goal exactly when the route has no other point or ends more than 5 cm away from it |
| `RouteLaws.HereIsCurrent` | robot_brain/navigation/native_go2.py:406-413 | planning starts at the odometry place turned and shifted by the transform, which seen from the odometry frame is that place again |
| `MapWindow.EndsOnGrid` | robot_brain/navigation/native_go2.py:412-424 | whatever the distance, the planned window holds the robot and its goal, at any resolution up to 2 m |
| `MapWindow.WindowHolds` | robot_brain/navigation/map_store.py:255-272 | a window holds its size around its centre, and little more |
| `MapWindow.ObstaclesStand` | robot_brain/navigation/native_go2.py:412-424 | the window's obstacles are exactly the stored voxels between 5 cm and 1.20 m high, each at its own place |
| `DrivenRoute.OdomKeepsLength` | robot_brain/navigation/native_go2.py:437-441 | the change to the odometry frame keeps all lengths, so the 5 cm test there is the one in the map |
| `VoxelGrid.ProjectionIsTranslation` | robot_brain/navigation/map_store.py:266-289 | projecting map columns onto a grid window is an integer translation, with no rounding loss |
| `VoxelGrid.GridShowsMap` | robot_brain/navigation/map_store.py:255-310 | occupied is the exact dilation of the obstacle columns, known free is the translated free columns minus occupied |
| `VoxelGrid.OccupiedInMetres` | robot_brain/navigation/map_store.py:281-300 | a cell is occupied when an obstacle voxel of the window stands within the robot's radius of it, and only when one stands less than a cell further away |
| `VoxelGrid.GlobalRouteAvoidsVoxels` | robot_brain/navigation/native_go2.py:412-429 | a global route only enters columns that rays have crossed and keeps the inflation radius from every stored obstacle voxel on the grid |
| `VoxelGrid.WaypointAvoidsVoxels` | robot_brain/navigation/map_store.py:255-310 | the same for any point, wherever in its proven cell it lies |
| `VoxelMap.SparseVoxelMap.Integrate` | robot_brain/navigation/map_store.py:66-118 | an untrusted frame is an error that changes nothing; otherwise the content becomes the specified next content, and the generation grows by one exactly when a point counted |
| `VoxelObservation.TouchedExactly` | robot_brain/navigation/map_store.py:80-95 | a frame touches exactly the voxels that hold a world point whose offset from the pose, turned into the body frame, is a point of the cloud in the band |
| `VoxelObservation.RayExactly` | robot_brain/navigation/map_store.py:378-390 | a ray holds the voxels of evenly spaced samples of the segment, at most half a voxel apart and no more than that takes, from the start's voxel to the end's |
| `VoxelObservation.FreeExactly` | robot_brain/navigation/map_store.py:96-105 | a frame sees a voxel free exactly when it carves, the voxel lies on the ray from the sensor to such a point, and the frame does not touch it |
| `VoxelMap.SparseVoxelMap.IntegrateView` | robot_brain/navigation/map_store.py:80-118 | counting, carving and bounded eviction together are one step of the content specification |
| `VoxelMap.SparseVoxelMap.EnforceLimit` | robot_brain/navigation/map_store.py:392-399 | the victims are the lowest by hits, then by voxel, and exactly as many as the bound demands |
| `VoxelContent.WeakestIsUnique` | robot_brain/navigation/map_store.py:396-399 | the bound leaves no choice which voxels are evicted |
| `VoxelContent.RunValid` | robot_brain/navigation/map_store.py:66-118 | after every run misses belong to stored voxels, hits are at least one, and the size stays within the bound |
| `VoxelContent.MissesCountPasses` | robot_brain/navigation/map_store.py:100-114 | a stored voxel's miss counter is the number of carving frames through it since its last hit, over every run |
| `VoxelContent.LeavesForAReason` | robot_brain/navigation/map_store.py:106-118 | a voxel leaves the map only by reaching the carving threshold or as one of the weakest over the bound |
| `VoxelRuns.HitsAreCounted` | robot_brain/navigation/map_store.py:96-114 | over every run a stored voxel's count is the number of frames that touched it while it was stored |
| `VoxelRuns.FreeIsSeenThrough` | robot_brain/navigation/map_store.py:100-105 | over every run a column is free exactly when some frame saw a voxel of it free |
| `VoxelRuns.StoredExactly` | robot_brain/navigation/map_store.py:96-118 | a frame leaves every voxel that was stored or is touched, except those that rays have carved away and, when the map is then full, those that go before all that stay, by count and then by coordinates |
| `VoxelContent.UntouchedIsUnchanged` | robot_brain/navigation/map_store.py:115-117 | a frame without a counting point changes nothing, so every content change has a new generation |
| `VoxelPersistence.SaveLoadRoundTrip` | robot_brain/navigation/map_store.py:312-366 | loading what was saved restores hits, free cells, bound and full identity with its revision, for every valid map; only the miss counters start afresh |
| `VoxelPersistence.LoadedIsValid` | robot_brain/navigation/map_store.py:336-366 | whatever file loads yields a valid map: positive counts within a bound that was raised to the number of rows |
| `VoxelPersistence.Load` | robot_brain/navigation/map_store.py:336-366 | the object built from a file is the one the load specification describes, or its error |
| `VoxelPersistence.Save` | robot_brain/navigation/map_store.py:312-333 | the file written is the specified payload with its own hash, and the map is not changed |
| `VoxelPersistence.FileHolds` | robot_brain/navigation/map_store.py:401-415 | a saved file has one row of coordinates and count for every voxel, in ascending order, and one for every free column |
| `VoxelPersistence.OldFilesLoad` | robot_brain/navigation/map_store.py:336-355 | a map of the first schema is named after the first sixteen characters of its hash, and the bound is raised to the number of rows |
| `Frontier.ReachableFree` | robot_brain/navigation/frontier.py:70-80 | the flood is exactly the four-connected known-free component of the start |
| `Frontier.Components` | robot_brain/navigation/frontier.py:83-98 | the groups are the partition into maximal eight-connected components |
| `Frontier.FindFrontierGoals` | robot_brain/navigation/frontier.py:20-67 | sound and complete: one goal for every group that qualifies and none for the others, at the first of the safe cells nearest to their centroid, with the score of the formula, best score first |
| `FrontierLaws.FrontierGoalMeans` | robot_brain/navigation/frontier.py:20-67 | every goal belongs to a maximal connected piece of the reachable border to the unknown, of at least the minimum length; it is the safe cell with the least sum of squared distances to the safe cells of that piece, keeps the clearance in metres, and its score times the way there, one cell at least, is the length of the piece |
| `FrontierLaws.LongFrontierHasGoal` | robot_brain/navigation/frontier.py:34-58 | conversely every such piece with a cell that is open with a cell to spare has a goal in it |
| `FrontierLaws.GoalsDescend` | robot_brain/navigation/frontier.py:66-67 | goals come by score, then by nearness to the robot, then by x and y |
| `Frontier.FirstNearest` | robot_brain/navigation/frontier.py:61-63 | the first of the cells at the least distance, as `min` picks it |
| `Frontier.GoalsAvoidVisited` | robot_brain/navigation/frontier.py:47-58 | no goal lies within the visited radius of a goal already visited |
| `CoverageRoute.CoverageOrder` | robot_brain/navigation/patrol.py:130-138 | the order lists every cell once, row by row, with directions by the parity of the row's rank |
| `CoverageRoute.CoverageAlternatesExactly` | robot_brain/navigation/patrol.py:95-105 | a coverage route cut to n waypoints alternates direction if and only if, among the cells and n alone, any two rows that show two or more waypoints with none such between them are separated by an even number of occupied rows; a row shows what n leaves it after the rows below |
| `CoverageRoute.CoverageCanFail` | robot_brain/navigation/patrol.py:95-105 | concrete cells for which the generated coverage order does not alternate |
| `Patrol.CreatePatrolRoute` | robot_brain/navigation/patrol.py:39-79 | what each strategy returns: frontier goals, or the lattice cells in the strategy's order, cut to the waypoint limit |
| `PatrolLaws.StrideIsNearest` | robot_brain/navigation/patrol.py:52-60 | the stride is the whole number of cells nearest to the spacing, at least one, the even one of two |
| `PatrolLaws.StopsApart` | robot_brain/navigation/patrol.py:126-128 | so different lattice stops are at least the spacing less half a cell apart |
| `PatrolLaws.LeastVisitedComeFirst` | robot_brain/navigation/patrol.py:68-77 | the least visited come first, of those the nearest to the robot in metres, of those the leftmost |
| `Patrol.GoalCentres` | robot_brain/navigation/frontier.py:34-67 | every goal cell is known free and borders in-grid unknown, and no two goals share a cell |
| `Patrol.VisitationHistory.Record` | robot_brain/navigation/patrol.py:25-36 | a visit raises the count of every point of its own square by one and of no other point |
| `PatrolEvaluation.EvaluatePatrolRoute` | robot_brain/navigation/patrol.py:82-123 | the evaluator lists no failure exactly when the route is nonempty, in known-free cells, without repeats, and satisfies its strategy's rule |
| `PatrolLaws.PassesExactly` | robot_brain/navigation/patrol.py:82-123 | in the world: waypoints, each in a known free square of the grid, no two in one square, and the strategy's rule |
| `PatrolEvaluation.GeneratedRoutesPass` | robot_brain/navigation/patrol.py:39-123 | every nonempty generated route passes the evaluator, except that a coverage route passes if and only if the free lattice cells and the waypoint limit make its rows alternate |
| `ScanScore.MakeSpatialIndex` | robot_brain/navigation/relocalization.py:197-202 | each bucket holds exactly the points of its block, in order |
| `ScanScore.NearestInBlock` | robot_brain/navigation/relocalization.py:186-192 | the nine blocks around a point contain its nearest target whenever that is in reach |
| `ScanScore.BlockLosesNothing` | robot_brain/navigation/relocalization.py:186-192 | a target within the correspondence distance lies in the same or a neighbouring block |
| `ScanScore.Score` | robot_brain/navigation/relocalization.py:174-194 | the hashed score has the inlier count, fitness and error of comparing every source point with every target: as many inliers as placed points with a target in reach, fitness their share of the scan, and the error the root of the mean of their least squared gaps |
| `ScanScore.BruteScoreMeans` | robot_brain/navigation/relocalization.py:174-194 | the score that is ranked is that count, that share and that root, for every placement |
| `ScanScore.InlierExactly` | robot_brain/navigation/relocalization.py:192-193 | a point counts as an inlier exactly when some target is within the correspondence distance |
| `ScanScore.ScoreInRange` | robot_brain/navigation/relocalization.py:193-195 | fitness is a fraction, and the error of inliers never exceeds the correspondence distance |
| `ScanScore.Downsample` | robot_brain/navigation/relocalization.py:209-215 | thinning keeps the first point of each block until the limit is met |
| `ScanScore.ThinnedIsSample` | robot_brain/navigation/relocalization.py:209-215 | the sample has real points, one a block, at most the limit, and below the limit every occupied block |
| `ScanScore.AxisWithin` | robot_brain/navigation/relocalization.py:218-228 | a search axis starts at one end, rises by whole steps and passes the other end by less than the slack |
| `ScanScore.AxisCovers` | robot_brain/navigation/relocalization.py:218-228 | every value in the window has a candidate less than one step below it |
| `ScanSearch.Sweep` | robot_brain/navigation/relocalization.py:132-139 | the nested loops keep the first best of all combinations and count them all |
| `ScanSearch.ChampionIsFirst` | robot_brain/navigation/relocalization.py:137-139 | among equally scored candidates the earliest one tried wins |
| `ScanSearch.SearchedIsBest` | robot_brain/navigation/relocalization.py:132-160 | no coarse candidate and no candidate of either refinement beats the outcome in the order of fitness, error and inliers |
| `ScanSearch.ReportedPoseScores` | robot_brain/navigation/relocalization.py:137-171 | the reported fitness, error and count are those of the reported, yaw-wrapped pose |
| `ScanLaws.SearchCourse` | robot_brain/navigation/relocalization.py:126-158 | the search ends at a placement that brings most points of the scan within reach, the smaller error deciding, among the asked ones; then among the 27 around that at the resolution, 0.10 m at least, and 5 degrees; then among the 27 around that at half of it, 0.05 m at least, and 2 degrees |
| `ScanLaws.AcceptedExactly` | robot_brain/navigation/relocalization.py:159-171 | it accepts exactly when enough of the scan is reached with a small enough error, and reports both numbers of the pose it reports, and why not |
| `ScanLaws.RelocalizationScans` | robot_brain/navigation/relocalization.py:116-124 | the scans compared are points of the cloud and of the map between -0.2 and 1.8 m, one for each square of the resolution, up to 500 and 10000 |
| `ScanSearch.Search` | robot_brain/navigation/relocalization.py:105-171 | every rejection with its reason and counts, the two reasons after the search included, and otherwise acceptance exactly when fitness and error meet their thresholds |
| `LoopClosure.VerifyLoop` | robot_brain/navigation/pose_graph.py:313-367 | bad limits, thin scans and exhausted budgets are reported as such; otherwise the result is the verdict on all placements of the search window |
| `ScanLaws.LoopScans` | robot_brain/navigation/pose_graph.py:404-425 | the scans compared are points between -0.3 and 1.8 m, one for each square of half the correspondence distance, up to 4000 |
| `LoopClosure.VerdictIsUnique` | robot_brain/navigation/pose_graph.py:345-367 | the placements leave no choice in a verdict, accepted or declined: decision, reason, pose, fitness, error and inliers are all determined |
| `LoopClosure.SensibleLimitsNeverRaise` | robot_brain/navigation/pose_graph.py:313-345 | with positive limits and a point minimum verification always comes back with a verdict |
| `LoopClosure.RunnerIsFittest` | robot_brain/navigation/pose_graph.py:345-355 | in ranked order the first spatially distinct candidate is the fittest distinct one, so the margin test compares with all of them |
| `LoopClosure.Judge` | robot_brain/navigation/pose_graph.py:345-367 | a loop is accepted if and only if the unique top candidate meets the thresholds and stands out by the margin |
| `LoopClosure.AcceptedLoopIsUnambiguous` | robot_brain/navigation/pose_graph.py:350-358 | an accepted loop beats every spatially distinct placement of the window by the margin |
| `LoopClosure.AcceptedLoopIsNearOdometry` | robot_brain/navigation/pose_graph.py:330-341 | an accepted edge is a scored placement inside the window around the odometry estimate |
| `Poses.ComposeAssociative` | robot_brain/navigation/pose_graph.py:295-299 | composition of planar poses with wrapped yaw is associative |
| `Poses.ComposeAxes` | robot_brain/navigation/pose_graph.py:295-299 | a child one unit ahead lies in the direction of the parent's heading, one to its left a quarter turn counterclockwise from there |
| `Poses.PlaceIsCompose` | robot_brain/navigation/relocalization.py:174-182 | placing a scan is composing with the pose |
| `Poses.InverseCancels` | robot_brain/navigation/pose_graph.py:302-306 | the inverse pose cancels on both sides |
| `Poses.RelativeRoundTrip` | robot_brain/navigation/pose_graph.py:309-310 | placing a relative pose at its source gives the target back, up to whole turns |
| `Poses.SameHeadingExactly` | robot_brain/navigation/pose_graph.py:392-397 | two yaws wrap to the same value if and only if they differ by whole turns |
| `Poses.WrappedIsFixed` | robot_brain/navigation/pose_graph.py:396-397 | a yaw is its own wrapped value exactly when it lies in [-180, 180) |
| `Poses.PlaceKeepsDistances` | robot_brain/navigation/relocalization.py:182-184 | placing a scan keeps all distances between its points |
| `Poses.InterpolateEnds` | robot_brain/navigation/pose_graph.py:381-384 | interpolation starts and ends at the given poses, whichever way the yaw wraps |
| `Poses.FramesArePoses` | robot_brain/navigation/native_go2.py:1034-1055 | the map and odometry transforms are composition with the transform and with its inverse |
| `Poses.FramesAreInverse` | robot_brain/navigation/native_go2.py:1034-1055 | the two transforms are mutual inverses up to whole turns |
| `Poses.RelocalizationFits` | robot_brain/navigation/native_go2.py:1072-1081 | the computed transform is, up to whole turns, the only one that carries the odometry pose to the map pose |
| `PoseGraph.PlanarPoseGraph.AddKeyframe` | robot_brain/navigation/pose_graph.py:115-125 | a timestamp that does not advance is an error that changes nothing; otherwise the keyframe is appended, with an odometry edge of weight 4 from the one before |
| `PoseGraph.PlanarPoseGraph.AddLoopConstraint` | robot_brain/navigation/pose_graph.py:127-136 | only known keyframes and a confidence in (0, 1] are accepted, and only then is the edge appended |
| `PoseGraph.PlanarPoseGraph.Optimize` | robot_brain/navigation/pose_graph.py:138-185 | a bad budget is the only error; too few keyframes and missing loops are rejections; otherwise the relaxation's poses are accepted exactly under the improvement and correction limits |
| `OptimizerLaws.OptimizedCourse` | robot_brain/navigation/pose_graph.py:138-185 | behind every report lies such a course from the raw poses; the rounds it counts, the poses it returns and both residuals are those of the course |
| `OptimizerLaws.AcceptedExactly` | robot_brain/navigation/pose_graph.py:169-185 | it is accepted exactly when the residual falls by the demanded share of it and no keyframe moves or turns too far, and otherwise the reason is the first of these that fails |
| `OptimizerLaws.DisagreementIsResolved` | robot_brain/navigation/pose_graph.py:138-185 | a loop that contradicts one metre of odometry is resolved and accepted: the keyframe goes back more than a quarter of the way, towards the sixth where the pulls of 4 and 20 balance |
| `OptimizerLaws.CloseLoop` | robot_brain/navigation/pose_graph.py:115-185 | the same through the graph's own methods |
| `PoseGraph.ChainAnchors` | robot_brain/navigation/pose_graph.py:115-125 | the complete odometry chain gives every keyframe but the first a constraint |
| `PoseGraph.AcceptedIsBounded` | robot_brain/navigation/pose_graph.py:165-185 | a result keeps the anchor and all nodes, an accepted one moves no pose beyond the limits, a rejected one is the raw poses |
| `PoseGraph.AcceptedLowersResidual` | robot_brain/navigation/pose_graph.py:169-185 | the poses an accepted result returns have a lower weighted residual on the graph's edges than the raw poses, by at least the demanded fraction |
| `PoseGraph.ImprovementBound` | robot_brain/navigation/pose_graph.py:172-177 | acceptance lowers a residual that is not negligible by at least the demanded fraction |
| `PoseGraph.CollectPulls` | robot_brain/navigation/pose_graph.py:153-159 | the edge loop gives every node exactly its own proposals |
| `PoseGraph.RunRound` | robot_brain/navigation/pose_graph.py:152-165 | one round moves every node but the anchor as its edges ask: along x and y the summed weight times the move is the relaxation times the weighted sum of the offsets to the proposals, and the turn is that share of the turn to their mean direction; it measures the largest move |
| `RelaxationLaws.RoundFollowsEdges` | robot_brain/navigation/pose_graph.py:152-163 | the rounds the optimizer iterates are such rounds |
| `RelaxationLaws.StaysExactly` | robot_brain/navigation/pose_graph.py:370-385 | a node stays in x or y exactly when the weighted pulls of its edges balance there |
| `RelaxationLaws.AgreedGapShrinks` | robot_brain/navigation/pose_graph.py:370-385 | when all edges at a node ask for one pose, the gap to it in x, y and yaw shrinks to exactly the share that the relaxation leaves |
| `RelaxationLaws.RelaxationCourse` | robot_brain/navigation/pose_graph.py:149-167 | a relaxation is a course of such rounds from the raw poses that ends with the first to move no node by more than the tolerance, or with the budget |
| `RelaxationLaws.RmseIsMisfit` | robot_brain/navigation/pose_graph.py:205-213 | the residual is the root of the weighted mean of the edges' squared misfits in place and heading |
| `PoseGraph.Relax` | robot_brain/navigation/pose_graph.py:149-167 | the rounds stop at the first small move or at the budget |
| `PoseRelaxation.WeightedPoseSucceeds` | robot_brain/navigation/pose_graph.py:370-378 | on an anchored graph the weighted mean never meets an empty list or a zero weight |
| `PoseRelaxation.AnchorStays` | robot_brain/navigation/pose_graph.py:160-167 | the map anchor never moves, over any number of rounds |
| `PoseRelaxation.AgreementStopsAtOnce` | robot_brain/navigation/pose_graph.py:149-167 | a graph whose edges all agree is left unchanged after a single round |
| `PoseRelaxation.RmseZeroExactly` | robot_brain/navigation/pose_graph.py:205-213 | the residual is zero if and only if every edge agrees with the poses |
| `PoseCorrection.CorrectionRebuilds` | robot_brain/navigation/pose_graph.py:187-203 | at every time the correction composed with the raw interpolated pose is the optimized interpolated pose |
| `PoseCorrection.CorrectionAtKeyframe` | robot_brain/navigation/pose_graph.py:187-203 | at a keyframe's own time the correction carries its raw pose to its optimized pose |
| `PoseCorrection.BracketFraction` | robot_brain/navigation/pose_graph.py:192-200 | a time inside the recorded span lies in its interval and the fraction never leaves [0, 1] |
| `PoseTracker.CandidatesAreNearest` | robot_brain/navigation/pose_graph.py:275-286 | candidates are old enough near keyframes, at most the configured number, and none left out is nearer than one kept |
| `LoopEdgeLaws.NearestAreTried` | robot_brain/navigation/pose_graph.py:275-286 | in metres and seconds: once there are enough keyframes, a near and old enough one is tried, or the list is full of others no further away |
| `LoopEdgeLaws.TriedNearestFirst` | robot_brain/navigation/pose_graph.py:275-286 | and what is tried comes nearest first |
| `PoseTracker.OnlinePoseGraphTracker.Process` | robot_brain/navigation/pose_graph.py:226-270 | the state after a call and the update it reports with its reason, for every path through it including the raising ones, and which path is taken; with a loop edge in the graph the update carries the optimizer's report on that graph, accepted or not |
| `PoseTracker.RaisesExactlyWhenLate` | robot_brain/navigation/pose_graph.py:226-270 | with sensible limits a call raises if and only if it makes a keyframe below capacity whose timestamp does not advance |
| `PoseTracker.FindLoop` | robot_brain/navigation/pose_graph.py:244-256 | candidates are verified in order: a found loop is the first accepting one with all before it declined, none found means that all were declined, and an exception ends the search |
| `PoseTracker.OnlinePoseGraphTracker.MatchLoop` | robot_brain/navigation/pose_graph.py:244-256 | the search runs over the nearest revisits of the new keyframe, nearest first |
| `TrackerRuns.RunKeepsInvariant` | robot_brain/navigation/pose_graph.py:226-270 | in every state of every run scans match keyframes, timestamps increase, the odometry chain is complete, every loop edge was accepted by the verification of its call under the limits of that call, and the correction was published by an accepted optimization of the keyframes and edges of its moment |
| `TrackerRuns.LoopEdgesMeetTheirLimits` | robot_brain/navigation/pose_graph.py:244-256 | in every state of every run each loop edge joins an old enough revisit, lies in the search window around the odometry estimate, meets the thresholds of the call that added it and beats every distinct placement by its margin |
| `LoopEdgeLaws.LoopEdgeIsBestRevisit` | robot_brain/navigation/pose_graph.py:226-367 | in every state of every run a loop edge joins two keyframes recorded near each other with enough time between them; it brings at least as many points of the later scan within reach of the earlier one as any placement of its window, more by the margin than any that is one and a half steps away, meets the thresholds, and weighs twenty times the share it matched, one at least |
| `LoopEdgeLaws.DefaultEdgeIsBest` | robot_brain/navigation/pose_graph.py:313-319 | the same with the default numbers |
| `TrackerRuns.GrowsExactly` | robot_brain/navigation/pose_graph.py:226-243 | every call of every run, raising or not, adds its frame exactly when there is room and either it is the first or the robot has driven or turned by the thresholds and time has passed |
| `TrackerRuns.KeyframesApart` | robot_brain/navigation/pose_graph.py:226-243 | so any two consecutive keyframes of a run are apart by the thresholds |
| `UpdateLaws.ScansAreKept` | robot_brain/navigation/pose_graph.py:226-243 | and the scan of every keyframe is kept with it |
| `UpdateLaws.UpdateReports` | robot_brain/navigation/pose_graph.py:226-293 | in every run a report that does not raise says what happened: the frame it kept, the edges it added, the pose under the correction then in force, and the reason |
| `TrackerRuns.DefaultLoopEdges` | robot_brain/navigation/pose_graph.py:313-319 | under the default limits every loop edge of every run has fitness at least 0.55, at least twelve inliers and an error of at most 0.14 |
| `TrackerRuns.CorrectionIsBounded` | robot_brain/navigation/pose_graph.py:165-185 | whatever correction is in force in a run came from an optimization that kept the anchor, moved no keyframe by more than 5 m or 90 degrees and lowered the residual of the edges the graph held when it was published |
| `TrackerRuns.AcceptedUpdateCorrects` | robot_brain/navigation/pose_graph.py:260-273 | in every run, right after an accepted optimization the newest keyframe is reported at its optimized pose |
| `TrackerRuns.OtherUpdatesKeepCorrection` | robot_brain/navigation/pose_graph.py:258-263 | in every run, a call without an accepted optimization changes neither the published correction nor the last result |
| `MotionLease.AtMostOnePasses` | robot_brain/actuation/unitree_webrtc.py:1759-1762 | in no state of any run can two streams pass the generation check |
| `MotionLease.SupersededForever` | robot_brain/actuation/unitree_webrtc.py:1648-1651 | a lease once lost is never regained, and every acquisition or bump takes it from all streams |
| `MotionLease.AtMostOneLateSample` | robot_brain/actuation/unitree_webrtc.py:1759-1776 | after the lease has moved on a stream publishes at most one more velocity sample |
| `MotionLease.SupersededExits` | robot_brain/actuation/unitree_webrtc.py:1758-1793 | from losing the lease a stream takes a bounded number of further steps of its own, whatever else runs |
| `MotionLease.CleanupIsFinal` | robot_brain/actuation/unitree_webrtc.py:1787-1793 | from any state of a run in which a stream sends zero frames or has ended, that stream never samples again, loses no zero frame and, once ended, never changes |
| `MotionLease.ExitPaths` | robot_brain/actuation/unitree_webrtc.py:1758-1820 | a sampled one-shot stream ends with fewer zero frames than configured if and only if it leaves the loop with no connection object while frames are due, a zero frame still due raises, or a cancellation is delivered with frames left to send |
| `MotionLease.LostConnectionFallsShort` | robot_brain/actuation/unitree_webrtc.py:1787-1793 | a run in which the connection object is gone when the loop is left |
| `MotionLease.RaisingZeroFallsShort` | robot_brain/actuation/unitree_webrtc.py:1787-1793 | a run in which the first zero frame raises |
| `MotionLease.CancelledZerosFallShort` | robot_brain/actuation/unitree_webrtc.py:1787-1793 | a run in which a cancellation lands after the first of several zero frames |
| `MotionLease.IdleIsNotExclusive` | robot_brain/actuation/unitree_webrtc.py:1642-1664 | a run in which one stream returning releases two callers and both go on to run, so the idle event alone excludes nobody |
| `LeaseExclusion.AtMostOneRuns` | robot_brain/actuation/unitree_webrtc.py:1642-1687 | but in every run in which no wait times out and no two callers wait at once, at most one is in its stream at any time |
| `MotionLease.LeaseStaysValid` | robot_brain/actuation/unitree_webrtc.py:1629-1793 | generations are unique and increasing and the late and zero counts are kept in every state of every run |
| `MotionLease.UnitreeMotion.Acquire` | robot_brain/actuation/unitree_webrtc.py:1654-1664 | acquiring bumps the generation and hands the new one to the new stream only |
| `VelocityStream.SampleUntilExit` | robot_brain/actuation/unitree_webrtc.py:1758-1786 | the loop takes one sample a turn up to the first turn that leaves it and reports the reason of that turn, the causes in their order |
| `VelocityStream.FirstExitIsUnique` | robot_brain/actuation/unitree_webrtc.py:1758-1786 | what the turns meet leaves no choice in when the loop is left, why, and after how many samples |
| `VelocityStream.SendZeros` | robot_brain/actuation/unitree_webrtc.py:1787-1793 | zero frames go out until the count, the first raising one or the first cancelled sleep, and finished means the full count |
| `VelocityStream.RunStream` | robot_brain/actuation/unitree_webrtc.py:1725-1820 | the whole coroutine: end reason, samples and zero frames for every course of its surroundings |
| `VelocityStream.CoroutineIsMachine` | robot_brain/actuation/unitree_webrtc.py:1725-1820 | the coroutine refines the stream of the interleaved machine: fed with what the very same turns and zero frames show it, step by step, that stream ends with the same samples, the same zero frames and the same outcome |
| `GoalLifecycle.FinishedOnce` | robot_brain/navigation/native_go2.py:568-775 | under every interleaving with cancel calls a goal is finished at most once, only the newest goal has a live task, and a goal that is over was finished unless its task crashed; a goal may start once the previous task is done and no cancel call is left to finish it |
| `GoalLifecycle.StartIsSafeExactly` | robot_brain/navigation/native_go2.py:363-404 | in every state that keeps the invariant, starting a goal is safe if and only if the previous task is done and no cancel call still has to finish it: then no continuation finishes the new goal twice, and otherwise some continuation does |
| `GoalLifecycle.UnfinishedExactly` | robot_brain/navigation/native_go2.py:471-491 | a goal that is over was never finished if and only if its task crashed and no cancel call has finished it since, and was finished once in every other case |
| `GoalLifecycle.FinishedExactlyOnce` | robot_brain/navigation/native_go2.py:770-775 | when the stop of the error handler does not raise, every goal that is over was finished exactly once |
| `GoalLifecycle.StatusIsStable` | robot_brain/navigation/native_go2.py:892-907 | in runs with safe starts a finished goal's status is never written again while it is the current goal |
| `GoalOutcomes.FinishedStatus` | robot_brain/navigation/native_go2.py:471-491 | in every run a finished goal has the status that the one step which finished it decided on: its own task's outcome, or canceled |
| `GoalOutcomes.TaskRemembers` | robot_brain/navigation/native_go2.py:568-775 | a task that is stopping the robot was sent there by its latest step, with the status it will finish with, and one in its error handler by an exception of it |
| `GoalLifecycle.NoSecondGoalWhileLive` | robot_brain/navigation/native_go2.py:363-404 | when set calls do not overlap and absolute ones begin only while no task is live, no goal starts while another goal's task is live |
| `GoalLifecycle.AbsoluteStartsSecond` | robot_brain/navigation/native_go2.py:382-404 | the second proviso is needed: every run with a live task and no set call under way goes on with one absolute call, overlapping no other, to a second goal on that task |
| `GoalLifecycle.AbsoluteOvertakesWorkingTask` | robot_brain/navigation/native_go2.py:382-404 | a run that does so, with set calls one at a time |
| `GoalLifecycle.EntryRisksExactly` | robot_brain/navigation/native_go2.py:363-404 | for both kinds of set call: its beginning lets a goal start on a live task, with no further absolute call, if and only if a task is live and the call is absolute or another set call is under way |
| `GoalLifecycle.LiveTaskCanBeOvertaken` | robot_brain/navigation/native_go2.py:382-404 | with absolute calls to come, the next start can hit a live task exactly when there is one |
| `GoalLifecycle.OvertakenExactly` | robot_brain/navigation/native_go2.py:363-404 | after any start a later absolute call can start another goal on the live task; without absolute calls that happens if and only if another set call was under way at the start |
| `GoalLifecycle.OverlappingSetsStartTwo` | robot_brain/navigation/native_go2.py:363-380 | two overlapping relative set calls both pass the check and start two live tasks |
| `GoalLifecycle.StartDuringCancelFinishesTwice` | robot_brain/navigation/native_go2.py:471-491 | a goal started while an earlier cancel call is returning is finished by that call and again by its own task |
| `GoalLifecycle.RaisingStopLeavesGoalActive` | robot_brain/navigation/native_go2.py:773-775 | a stop that raises in the error handler leaves the goal active with nobody at work on it |
| `GoalLifecycle.RunKeepsValid` | robot_brain/navigation/native_go2.py:445-491 | what every step of the execute task, of cancel calls and of safe starts keeps |
| `GoalLifecycle.NavigationClient.StopDone` | robot_brain/navigation/native_go2.py:477-491 | the part of a cancel call after the stop: request the task's cancellation or finish the goal itself |
| `Ramp.ApproachStep` | robot_brain/navigation/motion_safety.py:37-53 | a step ends on the segment to the target, no further than acceleration times duration, and exactly that much closer |
| `Ramp.SpeedNeverExceedsTargets` | robot_brain/navigation/motion_safety.py:37-56 | over any sequence of steps and resets the speed never exceeds the largest target speed |
| `Ramp.CommandsWithinLinearSpeed` | robot_brain/navigation/native_go2.py:702-730 | no translation command of the executor is faster than its linear speed |
| `Ramp.RemainingGap` | robot_brain/navigation/motion_safety.py:43-53 | under a constant target the remaining gap shrinks by a full step each time, down to zero |
| `Ramp.ReachedExactly` | robot_brain/navigation/motion_safety.py:43-53 | a constant target is held from step ceil(distance / step length) on and not before |
| `Ramp.LinearVelocityRampLimiter.Step` | robot_brain/navigation/motion_safety.py:37-53 | bad durations and scales are errors that change nothing; otherwise the velocity becomes the specified one |
| `TerrainController.TerrainPathController.Run` | robot_brain/navigation/terrain_controller.py:50-136 | the run stops at the first segment with an obstacle and reports its reason, the attempts and the last status it heard; the trace evaluator accepts a run's trace exactly when the run completed |
| `PatrolController.PatrolRunner.Run` | robot_brain/navigation/patrol_controller.py:50-180 | the evaluator accepts exactly when the route evidence was good and the run came back completed without failure; and that is exactly when every waypoint of every cycle was reached undisturbed |
| `PatrolController.PatrolRunner.DriveWaypoint` | robot_brain/navigation/patrol_controller.py:66-91 | counters, last status and trace after every outcome of a waypoint, and exactly when the run goes on, returns canceled, returns failed or raises |
| `ExplorationController.FrontierExplorationController.Run` | robot_brain/navigation/exploration.py:66-197 | the run ends at the first interruption, stale streak or the goal limit, as its reason says; the evaluator accepts exactly when that reason is allowed and a frontier was reached; the reported gains add up to the growth of the known map |
| `ExplorationController.FrontierExplorationController.Explore` | robot_brain/navigation/exploration.py:77-136 | what one round, interrupted or not, adds to the counters and to the trace, and when it ends the exploration |
| `ExplorationController.VisitedAreApart` | robot_brain/navigation/exploration.py:85-96 | however the map grows between the rounds, any two frontiers reached by one exploration lie more than half a metre apart |
| `ExplorationController.BestFrontierScoresMost` | robot_brain/navigation/exploration.py:85-96 | the frontier chosen is a goal of the highest score |
| `ExplorationController.StreakMeans` | robot_brain/navigation/exploration.py:128-136 | the streak that ends an exploration counts the last rounds that all gained too little |

## Left out

- Floating-point rounding, overflow and non-finite values: numbers are exact reals, so the finiteness checks of the source have no counterpart and points with non-finite coordinates do not occur.
- `heapq` and dictionary order: queues are sets of pairwise different rows from which the least is taken; nothing proved depends on a layout.
- `Planner.AstarPath`: the grid's traversal costs must be nonnegative, as every grid builder of the repository makes them (`Costmap.CostmapFromPointcloud`, `Costmap.WithObstacleDistanceCosts`); a non-finite weight cannot be written.
- `_bresenham` and `_bresenham_cells` are the same loop and are modelled once.
- `path_collision_fraction`, `points_in_cylinder`, `viewer_points_in_cylinder`, `viewer_overview_points` and `body_cloud`: filters and samplers that would add easy members.
- `random.Random(seed).shuffle`: the shuffled order is a parameter that must be a rearrangement.
- JSON text, SHA-256 and atomic file replacement: a payload is a structured value, the hash an uninterpreted function of it, a file either the whole payload or nothing.
- `uuid4` names for maps and goals: fresh names are parameters, goals are numbered.
- `relocalize_with_initial` and `relocalize_global` only choose the axes that `ScanSearch.Search` is given; the guard for an empty reference map and for the candidate budget of the global search is not modelled.
- `ScanScore.Score`: the correspondence distance must be positive; the source divides by it without a check.
- Integration of the tracker and of the voxel map into `_execute`, the replay and diagnostics writers, and the contents of events that no evaluator reads.
- `GoalLifecycle`: planning, sensing and driving between two awaits appear only through the way an await of the execute task comes back; wall-clock time and sensor readiness are such outcomes. Whether a stop precedes a terminal state is not claimed, because a rotation that loses odometry finishes without one.
- `MotionLease` and `VelocityStream`: health counters, the joystick mapping and the zero frames that callers of `_halt_motion` and `stream_hold` send themselves; a timeout of the idle wait and of the bridge call may happen at any time.
- `TerrainController.TerrainPathController.Run`, `ExplorationController.FrontierExplorationController.Run`: a navigation client that raises is not modelled there; the patrol model has it. Sinks are lossless.
- `PatrolController.PatrolRunner.Run`: waypoint coordinates and the choice between absolute and relative goals, which the evaluator does not read.
- WebRTC signalling, media, gRPC, ROS, LLM clients, prompts, dashboards, settings, SQLite stores, the scheduler, terrain3d, topology and visual navigation are not part of this model.
- direct_go2.py, nav2.py and fake.py repeat the goal lifecycle with weaker promises.
