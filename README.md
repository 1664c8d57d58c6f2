# Digging ant colony — a Dafny model

This project models the core of a small Rust/Bevy ant-colony game, proves properties of that model, and verifies with Dafny.

Worker ants walk toward a target, plan routes with a cost-aware grid search, and dig through a map of dirt and air tiles. A separate procedural-world module builds terrain chunks from noise and keeps a cache of chunks around the camera.

## What is modelled

The project has one Dafny module per part of the game:

- `Vectors`: integer world positions with squared lengths, an integer square root, rounding division, and exact integer comparisons of `a·√n` with `b`.
- `Collections` and `Optional`: small shared pieces.
- `Pathfinding` models `src/ant/pathfinding.rs`:
  - grid cells and their conversions;
  - the reversed node order that makes the `BinaryHeap` pop the cheapest node;
  - the step and dig costs;
  - the two searches, `find_path` and `find_nearest_accessible_point`.

  Each search is a pure function over the search state (`PathSearch`, `NearestSearch`). Next to it is the imperative version with the source's loops (`FindPath`, `FindNearestAccessiblePoint`), proved to return what the function returns. The search invariant `Inv` says:
  - every queued cell has a cost;
  - the start has cost 0;
  - every other costed cell has an adjacent predecessor of strictly lower cost.

  The invariant is preserved by every relaxation and every pop, and it makes path reconstruction terminate.
- `Terrain` models `src/terrain/mod.rs`:
  - the `TileStore` class, whose `tiles` map the methods update;
  - the start-up fill and the central cavity, as imperative methods proved against folds over the two scans.
- `Components` models `src/ant/components.rs`:
  - the `Ant` class and its field types;
  - the constants the tick uses;
  - the two ways an ant is made: `Default`, and the literal in the two spawn systems.
- `AntSystems` models `src/ant/systems.rs`:
  - the mouse click that reassigns every ant;
  - the per-frame `ant_movement` tick;
  - the cell a digging ant works on, one tile length along the normalised direction to its site. It is computed exactly: comparing `a·√n` with `b` needs only signs and squares, so no float and no truncated root enters it.

  `Tick` specifies one ant's turn as a function. `StepAnt` performs the same turn on an `Ant` and the `TileStore`, and `AntMovement` runs it over all ants in query order against the fold `MovementPass`. `src/ant/systems/ant_movement.rs` holds the same loop verbatim: its line N is line N + 81 of `src/ant/systems.rs`. It is modelled once, and the table cites both files.
- `WorldTerrain` models `src/world/terrain.rs`:
  - layer banding by chunk row;
  - feature selection from three noise samples;
  - `generate_chunk_data`'s nested scan, proved against the fold `FeatureScan`.
- `World` models `src/world/mod.rs`:
  - `generate_initial_chunks`;
  - `generate_chunks_around_camera` with its saturating `i32` window arithmetic, proved against the folds `InitialScan` and `AroundScan`.

  The `world` module is not declared in `src/lib.rs` or `src/main.rs`, but its logic is self-contained.

**Distances and coordinates.** Positions are integer world coordinates, and a grid cell is 8 units wide. Every float distance threshold becomes the same comparison on squares:

| test | in the source | in the model |
|---|---|---|
| short-hop | distance ≤ 50 | 64·d² ≤ 2500 |
| near target | distance < 2 cells | d² < 4 |
| arrival | distance < 5 | d² < 25 |
| waypoint reached | distance < 2 | d² < 4 |
| dig site reached | distance < 8 | d² < 64 |
| colony guard | distance > 500 | d² > 250000 |

**Noise.** The Perlin noise is the function `noise: (real, real) -> real`, held by the cache, and nothing is assumed about it.

**Notes on the source.**
- When the nearest accessible point is the ant's own position, the code still plans a path to it and follows that path. Digging starts only from path following, when solid ground touches the next waypoint.
- In the `Digging` branch, when there is no tile in the cell to dig, the tick just ends: the target, the mode and the velocity are kept (`DigTick`).

## Model

| member | source | states |
|---|---|---|
| Pathfinding.CellIndex | src/ant/pathfinding.rs:18-19 | the rounded cell index lies within half a cell of `w / 8`, and exact halves round away from zero, which pins the result down uniquely |
| Pathfinding.ToVec2 | src/ant/pathfinding.rs:16-25 | a cell's centre converts back to the same cell (`from_vec2(to_vec2(g)) == g`) |
| Pathfinding.SnapToNearestCentre | src/ant/pathfinding.rs:16-21 | any position strictly within half a cell of a cell centre maps to that cell |
| Pathfinding.CellDistanceMetric | src/ant/pathfinding.rs:27-31 | cell distance is symmetric and is zero exactly when the two cells are equal |
| Pathfinding.FromVec2 | src/ant/pathfinding.rs:16-21 | `GridPos::from_vec2`, cell by cell through `CellIndex`; `ToVec2` and `SnapToNearestCentre` state its round trip and its rounding |
| Pathfinding.CompareNodes | src/ant/pathfinding.rs:41-51 | `Node::cmp` is reversed: a node is Greater exactly when its f-cost is smaller, and Less exactly when its f-cost is larger |
| Pathfinding.PopIndex | src/ant/pathfinding.rs:41-45 | the popped node is greatest under the node order, so no queued node has a smaller f-cost; ties go to the earliest pushed |
| Pathfinding.DigCost | src/ant/pathfinding.rs:228-231 | the dig surcharge lies between 10 and 20, and is exactly 20 whenever the search runs (beyond direct-dig range) |
| Pathfinding.MoveCost | src/ant/pathfinding.rs:221-225 | 14 for a diagonal step and 10 otherwise; `StepCosts` states the full step cost |
| Pathfinding.EdgeCost | src/ant/pathfinding.rs:228-234 | the step cost plus the dig surcharge into an obstacle cell; `StepCosts` states its values |
| Pathfinding.Heuristic | src/ant/pathfinding.rs:240 | `(distance * 10.0) as i32` as the integer square root of 100 times the squared cell distance |
| Pathfinding.StepCosts | src/ant/pathfinding.rs:220-234 | once the search runs, a step into a solid cell costs 30 (orthogonal) or 34 (diagonal), and any other step costs 10 or 14 |
| Pathfinding.StartFrontierInv | src/ant/pathfinding.rs:180-186 | the initial state (start queued, g = 0, nothing closed) satisfies the search invariant |
| Pathfinding.Visit | src/ant/pathfinding.rs:205-250 | one pass of the neighbour loop keeps the current cell costed and does not touch the closed set |
| Pathfinding.RecordKeepsInv | src/ant/pathfinding.rs:237-249 | writing a strictly better cost together with the predecessor and a queued node keeps the invariant |
| Pathfinding.VisitKeepsInv | src/ant/pathfinding.rs:236-249 | relaxing one neighbour keeps the invariant; no cost rises, no costed cell is lost, and `came_from` changes only with a strict improvement |
| Pathfinding.ExpandFromKeepsInv | src/ant/pathfinding.rs:205-251 | the rest of the two neighbour loops from any offset on keeps the invariant and only lowers costs |
| Pathfinding.Expand | src/ant/pathfinding.rs:205-251 | the expanded cell stays costed and the closed set is unchanged; `ExpandKeepsInv` states that the invariant holds and costs only fall |
| Pathfinding.ExpandKeepsInv | src/ant/pathfinding.rs:204-251 | expanding a cell keeps the invariant, and costs only ever strictly decrease (the start stays at 0) |
| Pathfinding.PopAndClose | src/ant/pathfinding.rs:188-202 | the popped cell is that of a node with the least f-cost, the rest of the queue stays in order, the popped cell joins the closed set, and costs and predecessors are unchanged |
| Pathfinding.PopKeepsInv | src/ant/pathfinding.rs:188-202 | the popped cell has a cost, and popping and closing keep the invariant |
| Pathfinding.Trace | src/ant/pathfinding.rs:191-196 | walking `came_from` back is empty exactly at the start cell, and otherwise ends at the centre of the cell it began from |
| Pathfinding.TraceChained | src/ant/pathfinding.rs:191-198 | consecutive traced centres lie in adjacent cells, and the first one lies next to the start cell |
| Pathfinding.PathSearch | src/ant/pathfinding.rs:188-254 | the `while let Some(current) = open_set.pop()` loop as a function; `PathSearchShaped`, `PathSearchStep` and `PathSearchNext` state it |
| Pathfinding.PathSearchShaped | src/ant/pathfinding.rs:188-254 | every path the search returns starts with the literal start, steps between distinct adjacent cells, and ends at the goal cell's centre |
| Pathfinding.PathSearchStep | src/ant/pathfinding.rs:188-202 | popping the goal returns the literal start followed by the traced path; any other pop closes the cell and expands it |
| Pathfinding.PathSearchNext | src/ant/pathfinding.rs:202-251 | after a non-goal pop and its expansion the invariant holds and the search result is unchanged |
| Pathfinding.PlanPath | src/ant/pathfinding.rs:158-166 | within direct-dig range the result is exactly `[start, end]`; any result starts at `start` and has at least 2 points; a searched result ends at the end cell's centre and moves between adjacent cells |
| Pathfinding.Improve | src/ant/pathfinding.rs:92-96 | the popped cell replaces the best so far only when it is strictly nearer to the target |
| Pathfinding.NearestSearch | src/ant/pathfinding.rs:90-153 | the result is a popped cell at least as near to the target as every popped cell, and it exists whenever anything was popped; no popped cell other than the result is within 2 cells of the target |
| Pathfinding.NearestSearchStop | src/ant/pathfinding.rs:98-101 | the loop stops at the first popped cell within 2 cells of the target, after recording it |
| Pathfinding.NearestSearchNext | src/ant/pathfinding.rs:90-152 | a pop that does not stop keeps the invariant and the best-so-far property, and leaves the result unchanged |
| Pathfinding.NearestAccessiblePoint | src/ant/pathfinding.rs:54-156 | within direct-dig range the result is the literal target; otherwise it is always some cell centre |
| Pathfinding.RelaxNeighbor | src/ant/pathfinding.rs:211-249 | the imperative neighbour body (closed check, cost, relaxation) computes `Visit` |
| Pathfinding.ExpandNode | src/ant/pathfinding.rs:205-251 | the two nested `for` loops over dx and dy compute `Expand` |
| Pathfinding.ReconstructPath | src/ant/pathfinding.rs:191-199 | the `while` loop over `came_from`, followed by pushing start and reversing, produces the literal start followed by `Trace` |
| Pathfinding.CollectObstacles | src/ant/pathfinding.rs:169-172 | the obstacle set is the set of cells of the solid tile positions |
| Pathfinding.FindPath | src/ant/pathfinding.rs:158-255 | the imperative `find_path` returns `PlanPath` |
| Pathfinding.FindNearestAccessiblePoint | src/ant/pathfinding.rs:54-156 | the imperative `find_nearest_accessible_point` returns `NearestAccessiblePoint` |
| Pathfinding.ReversedSnoc | src/ant/pathfinding.rs:198 | reversing a path with one more point puts that point first |
| Terrain.TileStore.constructor | src/terrain/mod.rs:107-111 | a new store is empty |
| Terrain.TileStore.AddTile | src/terrain/mod.rs:113-120 | the tile at `position` becomes a tile of that position and kind, and nothing else changes; the count grows by one unless the position was already present |
| Terrain.TileStore.SetTileType | src/terrain/mod.rs:122-130 | returns true iff a tile exists there; on true only that tile's kind changes, and on false the store is unchanged |
| Terrain.TileStore.GetTile | src/terrain/mod.rs:132-135 | a tile is returned iff one is stored at the position, and that tile has this position and its stored kind |
| Terrain.TileStore.Count | src/terrain/mod.rs:157-159 | `count`, the number of stored tiles; `AddTile` and `FillScanCount` state how it grows |
| Terrain.TileStore.IsSolid | src/terrain/mod.rs:142-147 | true exactly for the positions of dirt tiles; false wherever there is no tile |
| Terrain.TileStore.SolidCount | src/terrain/mod.rs:161-166 | equals the number of solid tiles and never exceeds `count` |
| Terrain.TileStore.GetSolidTiles | src/terrain/mod.rs:149-155 | lists exactly the positions of the solid tiles, each once, so its length is `solid_count` |
| Terrain.CavityBounds | src/terrain/mod.rs:248-256 | every cavity position lies within 40 of the origin on each axis, so it is a position of the fill |
| Terrain.FillScanAt | src/terrain/mod.rs:224-230 | part-way through, the fill has added a dirt tile at every fill position already passed, and every other tile is unchanged |
| Terrain.FillScanCount | src/terrain/mod.rs:224-231 | on an empty store each step of the fill adds one new tile, giving 101 × 101 in all |
| Terrain.CavityScanAt | src/terrain/mod.rs:248-256 | the first loop has collected exactly the cavity positions it has passed |
| Terrain.CarveAllAt | src/terrain/mod.rs:264-271 | the conversion loop keeps every position, and turns to air exactly the listed tiles that were solid |
| Terrain.CarveCountIs | src/terrain/mod.rs:264-270 | `converted_count` is the number of distinct listed positions holding a solid tile |
| Terrain.CarvedOnlyDigs | src/terrain/mod.rs:241-278 | the cavity keeps every tile and its position, never turns air into dirt, removes exactly the cavity's solid tiles from the solid set, and lowers the solid count by exactly that many |
| Terrain.SetupTerrainShape | src/terrain/mod.rs:221-239 | on an empty store, set-up leaves tiles at exactly the 101 × 101 fill positions: air within 40 of the origin and dirt elsewhere |
| Terrain.SetupTerrain | src/terrain/mod.rs:221-239 | the fill and then the cavity produce the carved fill; the count of converted tiles is returned; an empty store ends with 101 × 101 tiles |
| Terrain.CreateCentralCavity | src/terrain/mod.rs:241-278 | converts exactly the solid tiles within radius 40 and returns how many there were |
| Terrain.CavityPositions | src/terrain/mod.rs:247-256 | the collected list holds exactly the grid positions within 40 of the origin |
| Terrain.CarvedByScan | src/terrain/mod.rs:263-271 | the conversion loop over those positions carves the cavity, and counts its solid tiles |
| Components.Ant.Default | src/ant/components.rs:71-86 | `Ant::default()`: no target, no path, cursor 0, searching; speed 100, command `Work`, role `Worker`, 0.1 s timer |
| Components.Ant.Spawned | src/ant/systems.rs:60-71 | a spawned ant is idle (no target, no path, cursor 0, searching) and faces +x, with a 2 s timer |
| AntSystems.HandleMouseClick | src/ant/systems.rs:10-46 | on a click every ant targets the click, drops its path, resets its cursor, searches, and stops; without a click nothing changes; other fields are never touched |
| AntSystems.Tick | src/ant/systems.rs:97-280 | one ant's turn, its branches in the source's order (no target, colony guard, digging, arrival, replanning, following); the `Tick*` lemmas state what each branch does |
| AntSystems.DigTick | src/ant/systems.rs:115-166 | the `Digging` branch: back to searching at the site, otherwise dig a dirt tile or head for an air one; `TickDigReached` and `TickDigsAtMostOneTile` state it |
| AntSystems.Replan | src/ant/systems.rs:183-215 | the recompute branch: `Replanned`, then stop or head along the new path; `ReplanFacts` states it |
| AntSystems.FollowPath | src/ant/systems.rs:217-276 | the path-following branch; `FollowPathFacts` and `TickFollow` state it |
| AntSystems.TickIdle | src/ant/systems.rs:277-279 | an ant without a target only has its velocity zeroed |
| AntSystems.TickColonyGuard | src/ant/systems/ant_movement.rs:21-31 | too far from its colony, an ant retargets the colony and nothing else changes that tick, whatever its mode |
| AntSystems.TickDigReached | src/ant/systems.rs:125-139 | within a tile of the dig site the ant goes back to searching and stops; the cursor advances by one exactly when the path has a waypoint left |
| AntSystems.TickDiggingKeepsTarget | src/ant/systems/ant_movement.rs:34-85 | the digging branch runs before the arrival test, so a digging ant keeps its target and path however close it is |
| AntSystems.DigGrid | src/ant/systems.rs:117-121 | the cell one tile length from the ant toward the dig site, per axis by `DigIndex`; on the site itself NaN casts to cell (0, 0) |
| AntSystems.DigCell | src/ant/systems.rs:142 | the key `grid_pos.to_vec2()` of the tile the digging branch looks up and digs |
| AntSystems.DigIndex | src/ant/systems.rs:117-121 | the point `p + 8·t/√n` lies within half a cell of the chosen cell's centre, and an exact half rounds away from zero, all decided exactly on integers |
| AntSystems.RoundsToCellUnique | src/ant/systems.rs:117-121 | exactly one cell meets `DigIndex`'s contract, so the contract fixes the dig cell |
| AntSystems.DigIndexNear | src/ant/systems.rs:117-121 | the dig cell's centre lies within one and a half tile lengths of the ant on each axis |
| AntSystems.DigIndexStill | src/ant/systems.rs:117-121 | on an axis where the site is level with the ant, the dig cell is the ant's own cell |
| AntSystems.DigIndexAxis | src/ant/systems.rs:117-121 | digging straight along an axis takes the cell of the point exactly one tile ahead |
| AntSystems.DigGridExample | src/ant/systems.rs:117-121 | from (0, 0) toward (9, 18) the ant digs cell (0, 1), the cell of about (3.58, 7.16) |
| AntSystems.TickDigsAtMostOneTile | src/ant/systems.rs:115-166 | a tick changes either no tile, or only the solid tile one step toward the dig site, which becomes air |
| AntSystems.TickOnlyDigs | src/ant/systems/ant_movement.rs:60-83 | tiles are never added, removed, moved or turned solid |
| AntSystems.TickArrival | src/ant/systems/ant_movement.rs:88-99 | a non-digging ant within 5 of its target drops target, path and cursor and stops; the next tick only zeroes its velocity |
| AntSystems.FollowPathFacts | src/ant/systems.rs:217-276 | following leaves tiles alone; short of the end, target and path are kept and the cursor moves by at most one; past the end, target, path and cursor are cleared |
| AntSystems.Replanned | src/ant/systems.rs:183-215 | after planning, a kept target always comes with a cached path |
| AntSystems.ReplanFacts | src/ant/systems.rs:183-215 | the nearest-point search always finds a point; if no path reaches it the target is dropped and the ant stops; otherwise the path to that point is cached, starting at the ant |
| AntSystems.TickReplan | src/ant/systems/ant_movement.rs:101-134 | with no path, or a used-up path, the tick plans toward the nearest accessible point, not the target; it drops the target on failure, and otherwise caches that path with the cursor at 0 or 1 |
| AntSystems.TickFollow | src/ant/systems.rs:217-268 | solid ground touching the waypoint's cell switches to `Digging(waypoint)` with the cursor unchanged; otherwise, within 2 of the waypoint, the cursor advances by exactly one; otherwise the ant heads for the waypoint |
| AntSystems.TickKeepsCursor | src/ant/systems/ant_movement.rs:49-178 | whenever a path is cached, the cursor is at most its length after every tick |
| AntSystems.ClickThenTick | src/ant/systems.rs:24-34 | after a click, an ant that is not turned back and not already there caches a path toward the accessible point, or drops the target |
| AntSystems.MovementPass | src/ant/systems.rs:97-281 | the pass over the first n ants yields one state and one velocity per ant |
| AntSystems.PassKeepsInvariants | src/ant/systems.rs:97-281 | over a whole pass, every cursor stays in bounds and the tiles only go from dirt to air |
| AntSystems.AntMovement | src/ant/systems.rs:89-281 | the loop over the ants gives each ant the state, and each velocity, of `MovementPass`, and leaves the store with its tiles |
| AntSystems.PassStep | src/ant/systems.rs:97-280 | one ant's turn extends the pass by that ant and touches no other ant |
| AntSystems.StepAnt | src/ant/systems.rs:97-280 | one ant's turn on the `Ant` and the `TileStore` is exactly `Tick`, and leaves the other fields alone |
| AntSystems.PlanToward | src/ant/systems.rs:189-196 | the nearest accessible point to the target always exists, and the path returned is the one `PlanPath` plans to it over the store's solid tiles |
| AntSystems.ReplannedCases | src/ant/systems.rs:190-214 | `Replanned` drops the target exactly when no path reaches the nearest accessible point, and otherwise caches that path with the cursor at 0 |
| AntSystems.PlanStep | src/ant/systems.rs:183-215 | the recompute branch on the ant produces `Replanned` |
| AntSystems.DigStep | src/ant/systems.rs:115-166 | the digging branch on the ant and the store produces `DigTick` |
| AntSystems.FollowStep | src/ant/systems.rs:217-276 | the path-following branch on the ant produces `FollowPath` |
| AntSystems.AnyTouching | src/ant/systems.rs:231-237 | `needs_digging` is true iff some listed solid tile's cell touches the waypoint's cell |
| WorldTerrain.LayerAt | src/world/terrain.rs:57-67 | the layer of a chunk row; `LayerDeepens` and `LayerExtremes` state it |
| WorldTerrain.SelectFeature | src/world/terrain.rs:84-128 | the per-layer feature test on the three noise samples; `FeatureSets`, `CaveFirst`, `CaveDeepens` and `BedrockIgnoresCaves` state it |
| WorldTerrain.FeatureScan | src/world/terrain.rs:71-132 | the feature scan as a fold over the cells; `FeatureScanSound`, `FeatureScanSorted` and `FeatureScanComplete` state it |
| WorldTerrain.ChunkData | src/world/terrain.rs:56-141 | the chunk `generate_chunk_data` returns; `ChunkDataSound`, `ChunkDataSorted` and `ChunkDataComplete` state it |
| WorldTerrain.LayerDeepens | src/world/terrain.rs:57-67 | a lower chunk row never has a shallower layer |
| WorldTerrain.LayerExtremes | src/world/terrain.rs:57-67 | Surface exactly for rows above 0, and Bedrock exactly for rows at or below -20 |
| WorldTerrain.FeatureSets | src/world/terrain.rs:84-128 | surface gives only caves; dirt never veins; stone never water; bedrock only veins; nothing ever gives `Tunnel` |
| WorldTerrain.CaveFirst | src/world/terrain.rs:84-120 | once the cave sample makes a cave, the water and resource samples do not matter |
| WorldTerrain.CaveDeepens | src/world/terrain.rs:84-120 | the cave thresholds fall with depth: a sample that makes a cave in one layer makes one in every deeper layer above bedrock |
| WorldTerrain.BedrockIgnoresCaves | src/world/terrain.rs:121-127 | bedrock looks only at the resource sample |
| WorldTerrain.FeatureScanSound | src/world/terrain.rs:71-132 | every listed feature is an already-visited cell of the chunk, with the kind its noise gives, and never `None` |
| WorldTerrain.FeatureScanSorted | src/world/terrain.rs:71-132 | features come x first, then y, strictly ordered, so no cell is listed twice |
| WorldTerrain.FeatureScanComplete | src/world/terrain.rs:71-132 | every visited cell whose feature is not `None` is listed with that feature |
| WorldTerrain.ChunkDataSound | src/world/terrain.rs:56-141 | the chunk echoes its position, is generated, has its row's layer, and lists only cells of the chunk, never `None` or `Tunnel`; only caves on the surface and only veins in bedrock |
| WorldTerrain.ChunkDataSorted | src/world/terrain.rs:71-132 | a chunk's features are in scan order with no repeats |
| WorldTerrain.ChunkDataComplete | src/world/terrain.rs:71-141 | a cell of the chunk is listed, with its kind, exactly when its feature is not `None` |
| WorldTerrain.TerrainCache.constructor | src/world/terrain.rs:46-54 | a new cache has no chunks and the given noise |
| WorldTerrain.GenerateChunkData | src/world/terrain.rs:56-142 | the nested loops return the chunk `ChunkData` describes |
| WorldTerrain.VisitCell | src/world/terrain.rs:73-132 | one cell's noise samples and feature test extend the scan by that cell |
| World.SaturatingAdd | src/world/mod.rs:63 | `i32::saturating_add` as the clamp of the exact sum to the `i32` range |
| World.SaturatingSub | src/world/mod.rs:61 | `i32::saturating_sub` as the clamp of the exact difference |
| World.ChunkCoord | src/world/mod.rs:60-70 | the window coordinate for one offset; `ChunkCoordClamps` states it |
| World.ChunkCoordClamps | src/world/mod.rs:60-70 | both branches step the offset with saturation, which is `clamp(c + offset)`: exact inside the `i32` range, never overflowing |
| World.WindowCellInWindow | src/world/mod.rs:58-72 | every visited chunk lies in the clamped window around the camera chunk |
| World.WindowCellCovers | src/world/mod.rs:58-72 | every chunk of the window is visited at some pair of offsets |
| World.AroundScan | src/world/mod.rs:58-84 | the camera pass as a fold over the offsets; `AroundScanSummary` and the `AroundScan*` lemmas state it |
| World.AroundScanStep | src/world/mod.rs:74-84 | a visited chunk that is already cached is left alone, and one that is missing is generated and inserted |
| World.AroundScanKeeps | src/world/mod.rs:74-84 | the camera pass never drops or overwrites a cached chunk |
| World.AroundScanAdds | src/world/mod.rs:58-84 | every chunk the pass adds lies in the window and is the generated chunk for its position |
| World.AroundScanCovers | src/world/mod.rs:58-76 | every chunk visited so far is cached |
| World.AroundScanCoversWindow | src/world/mod.rs:58-76 | after the pass every chunk of the window is cached |
| World.AroundScanNoop | src/world/mod.rs:74-84 | when the window is already cached the pass changes nothing |
| World.AroundScanIdempotent | src/world/mod.rs:45-88 | running the pass twice for the same camera chunk equals running it once |
| World.AroundScanSummary | src/world/mod.rs:58-84 | the whole pass keeps old chunks, adds only generated window chunks, and covers the window |
| World.InitialScan | src/world/mod.rs:29-33 | the initial pass as a fold over the 11 × 11 block; `InitialScanFacts` and `InitialScanSummary` state it |
| World.InitialScanFacts | src/world/mod.rs:29-33 | part-way through, the map holds the old chunks plus every visited chunk; visited chunks are generated afresh, others kept |
| World.InitialScanSummary | src/world/mod.rs:29-33 | the initial pass leaves exactly the old chunks plus the 11 × 11 block around the origin, the block regenerated and all others kept |
| World.GenerateInitialChunks | src/world/mod.rs:22-43 | the nested loops leave the cache as `InitialScan` describes |
| World.InitialStep | src/world/mod.rs:31-33 | one loop body: the new cache is the old cache with the chunk at offset indices `(i, j)` set to the generator's chunk for that position, whether or not it was cached before |
| World.GenerateChunksAroundCamera | src/world/mod.rs:45-88 | with no camera nothing changes; otherwise the nested loops leave the cache as `AroundScan` describes |
| World.CameraStep | src/world/mod.rs:60-84 | one loop body: if the saturated window position at offsets `(i, j)` is already cached, the cache is unchanged; otherwise it gains exactly that position, mapped to the generator's chunk |

## Left out

- **Floats.** Float geometry is replaced by integer world positions and squared distance comparisons: `Vec2` coordinates, `sqrt`, `normalize`, and `GridPos::distance` are not modelled as floats. Thresholds that a float computation would decide differently at their exact boundary are not captured.
- **Velocity.** Velocity is a heading vector plus a speed of 0, 50, 100 or 150. The float vector `direction * ANT_SPEED * k` is not modelled, and neither is the Rapier physics that moves the ant; positions are inputs to each tick.
- AntSystems.DigGrid: the cell is that of the exact point `pos + 8·(site − pos)/|site − pos|`, decided on integers. The `f32` rounding in `normalize`, in the scaling and in the sum is not modelled, so when that point lies within float error of a cell edge the source can pick the neighbouring cell.
- Pathfinding.Heuristic: `(distance * 10.0) as i32` is the integer square root of `100·d²`. The model does not prove that the heuristic is admissible, because the source does not promise it.
- **Search fuel.** Both searches run on an unbounded grid. Each search call gets at most `SEARCH_FUEL` (100000) pops.
  - Pathfinding.PlanPath: returns `None` when the fuel runs out.
  - Pathfinding.NearestAccessiblePoint: returns the best cell so far when the fuel runs out.

  Termination and completeness on the infinite grid are not stated.
- **Integer width in the searches.** `GridPos` coordinates and the g-, h- and f-costs are unbounded integers. The source's saturating `as i32` casts in `from_vec2` and the `i32` overflow of the neighbour sums and the cost sums are not modelled. Both would need coordinates or costs near 2³¹, far outside the tile world and the fuel bound.
- Pathfinding.PopIndex: Rust's `BinaryHeap` does not specify which of several equal-cost nodes pops first. The model picks the earliest pushed.
- AntSystems.Replanned: the `None` arm of the nearest-point search is modelled, but `ReplanFacts` shows it cannot be reached.
- **Tile keys.** `TilePosition`'s epsilon equality and hundredths hashing are not modelled. Tiles are keyed by exact integer positions.
- **`get_tile_mut`.** The mutable borrow is modelled as a lookup followed by a write-back of the changed tile.
- Terrain.TileStore.GetSolidTiles: the order is the map's iteration order, which the source leaves unspecified. Only the contents and the absence of repeats are stated.
- **Engine plumbing.** The ECS plumbing is not part of this model:
  - queries and commands;
  - `TileUpdateEvent` and `handle_tile_updates`;
  - `spawn_tile_entities`, `TerrainMaterials` and `spawn_chunk_entity` mesh building;
  - logging;
  - the colony entity.

  A colony lookup that fails is the `None` of each ant's colony position.
- **Noise.** The Perlin noise is an opaque function. Sample coordinates are exact reals, not rounded `f64` values.
- **Random generator.** The `TerrainCache` random generator is never drawn from, so it is not modelled.
- **Camera.** The camera's chunk `(floor(x / 32), floor(y / 32))` is an input, computed outside the model. A missing or ambiguous camera is `None`.
- **Chunk count.** The number of chunks after `generate_initial_chunks` (121 on an empty cache) is not stated as a map cardinality. `InitialScanSummary` states the exact key set instead.
- AntSystems.AntMovement: takes the ants' states as a ghost argument, and requires that the ants in the query are distinct objects.
- **Loop-body methods.** `VisitCell`, `InitialStep`, `CameraStep`, `PassStep`, `RelaxNeighbor`, `PlanStep`, `PlanToward`, `DigStep` and `FollowStep` are the bodies of the source's loops and branches, factored out as methods. The loops themselves stay in the methods that model each system.
- **Superseded and other files.** `src/ant.rs`, `src/ant/behaviors.rs`, `src/terrain.rs` and `src/ant/systems/mouse_click.rs` are superseded or duplicate variants and are not part of this model. Neither are the UI and camera movement, nor the app wiring.
