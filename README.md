# terrain-gen: a verified model of the world-generation core

terrain-gen builds a hexagonal world of tiles and shapes it with a chain of
generator stages. Each tile has a position in cube coordinates, a biome, an
elevation and a humidity (both coerced into fixed ranges), a water level
with a running total of the water that has passed over it, and river
connections keyed by direction. This project models the stages and the
objects they work on:

- `WorldHelper`: the neighbour map of a tile, the set of tiles within a
  number of steps, the rounding correction that turns a fractional cube
  coordinate into a tile, and the two tile-clustering overloads.
- `ContinentGenerator`: grows continents from random seeds over a pool of
  available tiles, merges continents that touch, fills small enclosed
  holes, trims thin coast, sinks the rest of the world to ocean floor with a
  shallow coast ring, and paints biome blotches onto each continent.
- `PeakGenerator`: picks well-separated peaks, raises them and smooths
  their neighbours.
- `BeachGenerator`: turns low land next to ocean into beach.
- `WaterPainter`: turns large groups of below-sea-level tiles into ocean.
- `FreshWaterGenerator`: rains on a continent, runs the water downhill from
  the highest tile to the lowest, and turns wet tiles into lakes.
- The two `Tile` classes (the `terraingen` and the later `terra` package),
  the `terra` `Chunk` (a square of tiles addressed by a chunk position), and
  the `groundwar` `Point` (a pair of Java ints).

The generators change tiles in place, so tiles are Dafny objects
(`TerraingenTile.Tile`, `TerraTile.Tile`) and every generator takes a map
from position to tile and declares `modifies tiles.Values`. Loops are
methods with invariants, proved against functions on values (`BeachPass`,
`Ball`, `Sweep`, `LakePass`, …). Where that helps the reader, the
generator's effect is also stated field by field: for example, "only
elevations change". The `ContinentGenerator` keeps its bookkeeping in a
class, as the source does. A continent is an entry of a list, and its
identity is its index: the source compares `Cluster` objects by reference.
Each random draw (`Funcs.randomFromCollection`, `IntRange.randomIn`,
`Random.nextInt`) is a nondeterministic choice from the same collection or
range, so every property holds for every outcome of the draws. Water
amounts and humidity are `real`. Java ints are unbounded integers except in
`Point` and in the chunk overlay colour, where the 32-bit wrap-around is
written out.

The modules `Hex` (cube coordinates, the six directions, `shift`, distance),
`Biomes` (the biome enum with `isWater`/`isLand`) and `TileSets` (the
frontier of a cluster, and splitting a set into connected pieces) define the
collaborators the core calls: `TilePoint`/`HexPoint`, `Direction`, `Biome`,
`Cluster` and `TileSet`. Those collaborators are not part of this model's
source files. Their contracts here are the ones their names and call sites
imply.

## Model

| member | source | states |
|---|---|---|
| WorldHelper.GetAdjacentTiles | src/main/java/me/lucaspickering/terraingen/world/WorldHelper.java:89-107 | fails with IllegalArgument exactly when the origin is not in the world; otherwise maps a direction to the point one step that way exactly when that point is in the world, so its values are the origin's in-world neighbours |
| WorldHelper.AdjacentMapFacts | src/main/java/me/lucaspickering/terraingen/world/WorldHelper.java:96-106 | a neighbour map has at most six entries, all of them world points, and its values are exactly the in-world neighbours |
| WorldHelper.GetTilesInRange | src/main/java/me/lucaspickering/terraingen/world/WorldHelper.java:124-153 | fails with IllegalArgument exactly when the origin is not in the world or the range is negative; otherwise returns the layered search result `Ball(range)`, for every range below the largest Java int (see "## Left out") |
| WorldHelper.AdjacentsOfLayer | src/main/java/me/lucaspickering/terraingen/world/WorldHelper.java:142-146 | the loop body collects the neighbours of the origin together with the neighbours of every tile of the last layer |
| WorldHelper.RangeStep | src/main/java/me/lucaspickering/terraingen/world/WorldHelper.java:139-150 | one pass of the range loop turns the result for k steps into the result for k + 1 steps |
| WorldHelper.OriginInBall | src/main/java/me/lucaspickering/terraingen/world/WorldHelper.java:135-136 | the origin is always in range, and range 0 gives just the origin |
| WorldHelper.BallMonotone | src/main/java/me/lucaspickering/terraingen/world/WorldHelper.java:139-150 | a larger range never loses a tile |
| WorldHelper.BallInWorld | src/main/java/me/lucaspickering/terraingen/world/WorldHelper.java:110-112 | every tile in range of a world tile exists in the world |
| WorldHelper.BallIsReach | src/main/java/me/lucaspickering/terraingen/world/WorldHelper.java:109-153 | a tile is in the result exactly when it can be reached from the origin in at most range steps through world tiles, which is the promise of the javadoc |
| WorldHelper.BallSymmetric | src/main/java/me/lucaspickering/terraingen/world/WorldHelper.java:124-153 | being within range is symmetric between world tiles |
| WorldHelper.CorrectRounding | src/main/java/me/lucaspickering/terraingen/world/WorldHelper.java:57-77 | the result is a valid cube point (x + y + z == 0) that keeps two of the three rounded coordinates; the one recomputed moved at least as far under rounding as the others, with ties going to z and then y; an already valid rounding is kept |
| WorldHelper.PredicateSimilarityMeetsThreshold | src/main/java/me/lucaspickering/terraingen/world/WorldHelper.java:169-173 | with the delegated score and the threshold 0.5, two tiles are similar exactly when both pass the predicate, and the score is symmetric |
| WorldHelper.ClusterTilesEmpty | src/main/java/me/lucaspickering/terraingen/world/WorldHelper.java:167-202 | both overloads, as written, return an empty list of clusters |
| TileSets.FloodFill | src/main/java/me/lucaspickering/terraingen/world/generate/ContinentGenerator.java:148 | the flood fill from a seed returns a connected piece of the set that holds the seed and has no neighbour in the set outside itself |
| TileSets.ClusterSet | src/main/java/me/lucaspickering/terraingen/world/generate/ContinentGenerator.java:148 | `TileSet.cluster` splits a set into non-empty, pairwise-disjoint, connected pieces that cover it, none with a neighbour in the set outside itself |
| TileSets.ClusteringUnique | src/main/java/me/lucaspickering/terraingen/world/generate/ContinentGenerator.java:168 | the pieces are determined by the set alone: in any two clusterings, the pieces that hold a given tile are equal |
| ContinentGenerator.OwnerIs | src/main/java/me/lucaspickering/terraingen/world/generate/ContinentGenerator.java:51 | under the bookkeeping invariant, tileToContinentMap names the continent that holds each continent tile |
| ContinentGenerator.ExactlyOnePlace | src/main/java/me/lucaspickering/terraingen/world/generate/ContinentGenerator.java:282-290 | every world tile is either available or in exactly one continent, never both |
| ContinentGenerator.OwnerKeys | src/main/java/me/lucaspickering/terraingen/world/generate/ContinentGenerator.java:51 | the tiles with a map entry are exactly the continent tiles |
| ContinentGenerator.AppendEmptyKeepsPartition | src/main/java/me/lucaspickering/terraingen/world/generate/ContinentGenerator.java:114 | starting a new, empty continent keeps the invariant |
| ContinentGenerator.AddKeepsPartition | src/main/java/me/lucaspickering/terraingen/world/generate/ContinentGenerator.java:282-290 | moving an available tile into a continent and recording it in the map keeps the invariant |
| ContinentGenerator.RemoveKeepsPartition | src/main/java/me/lucaspickering/terraingen/world/generate/ContinentGenerator.java:258-262 | returning a continent tile to the pool and dropping its map entry keeps the invariant |
| ContinentGenerator.ReclusterKeepsPartition | src/main/java/me/lucaspickering/terraingen/world/generate/ContinentGenerator.java:142-156 | replacing the continents by a clustering of their union, with the map naming each tile's new continent, keeps the invariant |
| ContinentGenerator.ClustersApart | src/main/java/me/lucaspickering/terraingen/world/generate/ContinentGenerator.java:148 | two different pieces of a clustering never touch: no tile of one has a neighbour in the other |
| ContinentGenerator.PoolIsRest | src/main/java/me/lucaspickering/terraingen/world/generate/ContinentGenerator.java:282-290 | under the bookkeeping invariant the pool is exactly the world minus every continent |
| ContinentGenerator.HolesInside | src/main/java/me/lucaspickering/terraingen/world/generate/ContinentGenerator.java:170-188 | the holes a continent encloses all come from the pool that was clustered |
| ContinentGenerator.FilledIsHoles | src/main/java/me/lucaspickering/terraingen/world/generate/ContinentGenerator.java:172-188 | folding the hole step over the clusters gives each continent itself plus exactly the clusters it encloses, all drawn from the pool |
| ContinentGenerator.SurroundingIsEnclosing | src/main/java/me/lucaspickering/terraingen/world/generate/ContinentGenerator.java:176-186 | when getSurroundingContinent names a continent for a small cluster, that continent encloses it, and adding the cluster to it is the hole step |
| ContinentGenerator.NoSurroundingNoEnclosing | src/main/java/me/lucaspickering/terraingen/world/generate/ContinentGenerator.java:180-181 | when the frontier is empty or touches two continents, no continent encloses the cluster, and the hole step changes nothing |
| ContinentGenerator.CleanupPool | src/main/java/me/lucaspickering/terraingen/world/generate/ContinentGenerator.java:166-194 | after filling and smoothing, the pool is the pool minus the filled continents plus the tiles smoothing gave back |
| ContinentGenerator.BuiltHasContinent | src/main/java/me/lucaspickering/terraingen/world/generate/ContinentGenerator.java:87-95 | a world of at least CONTINENT_SIZE_RANGE.min tiles gets at least one continent from growth, and so at least one after reclustering |
| ContinentGenerator.RemovableTwo | src/main/java/me/lucaspickering/terraingen/world/generate/ContinentGenerator.java:250-256 | when a tile has exactly two in-continent neighbours, comparing the two directions the loop reads decides the bridge test |
| ContinentGenerator.SelectTiles | src/main/java/me/lucaspickering/terraingen/world/generate/ContinentGenerator.java:331 | selectTiles with spacing 0 returns exactly the requested number of distinct continent tiles |
| ContinentGenerator.SingletonConnected | src/main/java/me/lucaspickering/terraingen/world/generate/ContinentGenerator.java:118-119 | a continent holding only its seed is connected |
| ContinentGenerator.ConnectedGrow | src/main/java/me/lucaspickering/terraingen/world/generate/ContinentGenerator.java:122-135 | adding a tile next to a connected continent keeps it connected |
| ContinentGenerator.UnionOf | src/main/java/me/lucaspickering/terraingen/world/generate/ContinentGenerator.java:143-146 | the first loop of reclusterContinents collects exactly the union of the continents |
| ContinentGenerator.PutCluster | src/main/java/me/lucaspickering/terraingen/world/generate/ContinentGenerator.java:150-152 | the inner loop maps every tile of one new continent to it and changes no other entry |
| ContinentGenerator.MapToClusters | src/main/java/me/lucaspickering/terraingen/world/generate/ContinentGenerator.java:149-153 | the nested loops map every tile of every new continent to that continent, over the same key set |
| ContinentGenerator.FrontierOutsidePool | src/main/java/me/lucaspickering/terraingen/world/generate/ContinentGenerator.java:212-216 | a tile next to a piece of the pool is never itself in the pool, which is the reason the source gives for the exception being unreachable |
| ContinentGenerator.FindRemovable | src/main/java/me/lucaspickering/terraingen/world/generate/ContinentGenerator.java:241-257 | the scan finds a continent tile with at most one in-continent neighbour, or exactly two that are not next to each other; it finds none only when the continent is smooth |
| ContinentGenerator.RemovableShrinks | src/main/java/me/lucaspickering/terraingen/world/generate/ContinentGenerator.java:244-257 | a tile that passes the removal test in a continent still passes it in every part of the continent that keeps it: fewer neighbours, and a non-adjacent pair can only lose members |
| ContinentGenerator.RemovableInNoSmooth | src/main/java/me/lucaspickering/terraingen/world/generate/ContinentGenerator.java:240-270 | a tile the scan may remove lies in no smooth subset of the continent, so removing it never loses a tile a smooth result could keep |
| ContinentGenerator.SmoothUnion | src/main/java/me/lucaspickering/terraingen/world/generate/ContinentGenerator.java:240-270 | the union of two smooth sets is smooth, so every continent has one greatest smooth part |
| ContinentGenerator.GreatestSmoothUnique | src/main/java/me/lucaspickering/terraingen/world/generate/ContinentGenerator.java:240-270 | the greatest smooth part is unique, so the order in which smoothCoast finds removable tiles does not change its result |
| ContinentGenerator.ReachedExtend | src/main/java/me/lucaspickering/terraingen/world/generate/ContinentGenerator.java:113-140 | a continent's stop condition (target reached, or no neighbour in the pool) still holds once later continents take more tiles from the pool |
| ContinentGenerator.GrowingStart | src/main/java/me/lucaspickering/terraingen/world/generate/ContinentGenerator.java:331-344 | each seed starts as a blotch of its own and every other continent tile is unassigned, which establishes the growing invariant |
| ContinentGenerator.GrowingRetire | src/main/java/me/lucaspickering/terraingen/world/generate/ContinentGenerator.java:356-359 | retiring a blotch with no unassigned neighbour keeps the growing invariant |
| ContinentGenerator.GrowingAdd | src/main/java/me/lucaspickering/terraingen/world/generate/ContinentGenerator.java:363-365 | adding an unassigned neighbour to a blotch keeps the growing invariant, including connectedness and disjointness |
| ContinentGenerator.GrowingEnd | src/main/java/me/lucaspickering/terraingen/world/generate/ContinentGenerator.java:348 | when the loop stops, every blotch holds its seed, lies in the continent and is connected, and a continent tile in no blotch borders none |
| ContinentGenerator.GrowBlotches | src/main/java/me/lucaspickering/terraingen/world/generate/ContinentGenerator.java:335-366 | step 3 yields one blotch per seed; the blotches are disjoint and connected, each holds its seed and lies in the continent, and a continent tile left in no blotch borders none |
| ContinentGenerator.PaintBlotches | src/main/java/me/lucaspickering/terraingen/world/generate/ContinentGenerator.java:370-375 | step 4 gives each blotch one biome of positive weight and sets it on every tile of the blotch; tiles in no blotch, and every field but the biome, are untouched |
| ContinentGenerator.PaintContinent | src/main/java/me/lucaspickering/terraingen/world/generate/ContinentGenerator.java:310-376 | one blotch per AVERAGE_BIOME_SIZE continent tiles, with the blotch properties of steps 3 and 4 |
| ContinentGenerator.ContinentGenerator.constructor | src/main/java/me/lucaspickering/terraingen/world/generate/ContinentGenerator.java:51 | a new generator has an empty tile-to-continent map and no continents |
| ContinentGenerator.ContinentGenerator.AddToContinent | src/main/java/me/lucaspickering/terraingen/world/generate/ContinentGenerator.java:282-290 | a tile new to the continent is added, recorded in the map and taken from the pool, failing with IllegalState (after those updates) when it was not in the pool; a tile already in the continent changes nothing; the invariant is kept |
| ContinentGenerator.ContinentGenerator.GenerateContinent | src/main/java/me/lucaspickering/terraingen/world/generate/ContinentGenerator.java:113-140 | appends one continent that is non-empty, connected and made of tiles taken from the pool, which loses exactly those tiles; the ghost target size lies in CONTINENT_SIZE_RANGE, the continent is no larger than it, and it either reached it or no tile of the remaining pool borders it |
| ContinentGenerator.ContinentGenerator.GrowContinents | src/main/java/me/lucaspickering/terraingen/world/generate/ContinentGenerator.java:82-95 | the loop ends with at least the target number of continents or fewer than CONTINENT_SIZE_RANGE.min available tiles, never overshoots the target, every new continent is non-empty, connected and bounded and met its own size target or has no neighbour left in the final pool; when no continent is added the pool is untouched |
| ContinentGenerator.ContinentGenerator.GrowFresh | src/main/java/me/lucaspickering/terraingen/world/generate/ContinentGenerator.java:82-95 | from an empty list and the whole world as the pool, the growth loop stops at the drawn target or when the pool is below CONTINENT_SIZE_RANGE.min, with every continent non-empty, connected, in the world and grown to its own target in CONTINENT_SIZE_RANGE or until no pool tile borders it, and the pool exactly the world minus the continents |
| ContinentGenerator.ContinentGenerator.ReclusterContinents | src/main/java/me/lucaspickering/terraingen/world/generate/ContinentGenerator.java:142-156 | the continents become a clustering of their union, so continents that touch are merged and no two new continents touch; the pool is untouched, and the map names each tile's new continent |
| ContinentGenerator.ContinentGenerator.GetSurroundingContinent | src/main/java/me/lucaspickering/terraingen/world/generate/ContinentGenerator.java:206-231 | returns the one continent that holds every frontier tile of the cluster; null when the frontier is empty or touches two continents; fails with IllegalState only when some frontier tile is in no continent, and never when all of them are in one |
| ContinentGenerator.ContinentGenerator.AbsorbCluster | src/main/java/me/lucaspickering/terraingen/world/generate/ContinentGenerator.java:183-185 | a surrounded cluster of available tiles joins the continent and leaves the pool |
| ContinentGenerator.ContinentGenerator.FillHole | src/main/java/me/lucaspickering/terraingen/world/generate/ContinentGenerator.java:173-187 | one pass of the hole loop: a small cluster joins the one continent that encloses it and leaves the pool, and otherwise nothing changes |
| ContinentGenerator.ContinentGenerator.FillHoles | src/main/java/me/lucaspickering/terraingen/world/generate/ContinentGenerator.java:172-188 | the hole loop over all pool clusters leaves each continent holding exactly the clusters it enclosed at the start |
| ContinentGenerator.ContinentGenerator.SmoothAll | src/main/java/me/lucaspickering/terraingen/world/generate/ContinentGenerator.java:191-193 | every continent ends as the greatest smooth part of what it was, and the list keeps its length |
| ContinentGenerator.ContinentGenerator.SmoothCoast | src/main/java/me/lucaspickering/terraingen/world/generate/ContinentGenerator.java:240-270 | the continent ends as the greatest smooth part of the old one: smooth (no removable tile), within it, and holding every smooth subset of it, so only tiles that must go are removed; the removed tiles go back to the pool, and no other continent changes |
| ContinentGenerator.ContinentGenerator.RemoveFromContinent | src/main/java/me/lucaspickering/terraingen/world/generate/ContinentGenerator.java:258-262 | the tile leaves the continent and the map and returns to the pool, keeping the invariant |
| ContinentGenerator.ContinentGenerator.CleanupContinents | src/main/java/me/lucaspickering/terraingen/world/generate/ContinentGenerator.java:166-194 | the pool is split into its clusters, each continent is first filled with exactly the small pool clusters whose frontier is non-empty and lies inside it, and then becomes the greatest smooth part of that filled form; the pool ends as the unfilled pool plus the tiles smoothing returned, so no other pool tile leaves it, and the IllegalState failure is never reached |
| ContinentGenerator.ContinentGenerator.GenerateContinents | src/main/java/me/lucaspickering/terraingen/world/generate/ContinentGenerator.java:81-103 | from the whole world as the pool: growth stops at the target count (10 to 20) or when fewer than CONTINENT_SIZE_RANGE.min tiles remain, each grown continent non-empty, connected, and grown to its own target size in CONTINENT_SIZE_RANGE or until no pool tile borders it; reclustering yields the connected pieces of the grown land, pairwise apart; each continent takes exactly the small holes it encloses; each final continent is the greatest smooth part of its filled form; and the pool is what filling and smoothing leave |
| ContinentGenerator.ContinentGenerator.BuildContinents | src/main/java/me/lucaspickering/terraingen/world/generate/ContinentGenerator.java:55-60 | the world's tiles become the pool and generateContinents runs on them, with its stage facts: growth to per-continent size targets, reclustering, hole filling, and greatest smooth parts |
| ContinentGenerator.ContinentGenerator.GenerateOceanFloor | src/main/java/me/lucaspickering/terraingen/world/generate/ContinentGenerator.java:292-302 | tiles next to a continent get coast elevation -6, other pool tiles ocean floor -20, continent tiles keep theirs; nothing but elevations changes |
| ContinentGenerator.ContinentGenerator.PaintContinents | src/main/java/me/lucaspickering/terraingen/world/generate/ContinentGenerator.java:66 | every tile keeps its biome or gets a paintable one, tiles outside all continents keep theirs, and only biomes change |
| ContinentGenerator.ContinentGenerator.FloorAndPaint | src/main/java/me/lucaspickering/terraingen/world/generate/ContinentGenerator.java:62-66 | the elevation rule of generateOceanFloor and the biome rule of painting hold together, and no other field changes |
| ContinentGenerator.ContinentGenerator.FinishTiles | src/main/java/me/lucaspickering/terraingen/world/generate/ContinentGenerator.java:62-66 | the ocean floor and the painting leave the continents, the pool and their stage facts as they were |
| ContinentGenerator.ContinentGenerator.Generate | src/main/java/me/lucaspickering/terraingen/world/generate/ContinentGenerator.java:54-67 | the stage facts of generateContinents over the whole world as the pool (size targets, reclustering, hole filling, greatest smooth parts); the world splits into pool and continents, pool and coast tiles get ocean-floor and coast elevations, only continent tiles are repainted, and only elevation and biome change |
| PeakGenerator.TruncatedHalfFacts | src/main/java/me/lucaspickering/terraingen/world/generate/PeakGenerator.java:63 | Java's int `/ 2` rounds toward zero: it equals floor division exactly on non-negative or even numbers, and is odd-symmetric |
| PeakGenerator.AddPeak | src/main/java/me/lucaspickering/terraingen/world/generate/PeakGenerator.java:35-42 | taking a remaining candidate as a peak and dropping everything in its range keeps the selection invariant |
| PeakGenerator.SelectPeaks | src/main/java/me/lucaspickering/terraingen/world/generate/PeakGenerator.java:29-43 | the target count lies in PEAK_COUNT_RANGE; the peaks are world tiles, at most the target, pairwise more than MIN_PEAK_SEPARATION steps apart; fewer than the target only when no candidate is left |
| PeakGenerator.WithinTwoSteps | src/main/java/me/lucaspickering/terraingen/world/generate/PeakGenerator.java:57 | a neighbour of a peak and the tile beyond it are both within MIN_PEAK_SEPARATION of the peak |
| PeakGenerator.SeparationFacts | src/main/java/me/lucaspickering/terraingen/world/generate/PeakGenerator.java:33-43 | separation means no peak is next to another, no tile is next to two peaks, and the tile beyond a peak's neighbour is neither a peak nor next to that peak |
| PeakGenerator.BeyondIsFar | src/main/java/me/lucaspickering/terraingen/world/generate/PeakGenerator.java:57 | the opposite tile is neither the peak nor one of its neighbours |
| PeakGenerator.SmoothNeighbour | src/main/java/me/lucaspickering/terraingen/world/generate/PeakGenerator.java:53-64 | the slop is in [-SMOOTHING_SLOP, SMOOTHING_SLOP], the opposite elevation is read (0 outside the world), and the neighbour gets the coerced truncated mean plus slop; nothing else on the tile changes |
| PeakGenerator.SmoothNeighbours | src/main/java/me/lucaspickering/terraingen/world/generate/PeakGenerator.java:52-65 | every world neighbour of the peak is smoothed against the elevation beyond it before the loop, and no tile that is not a neighbour changes |
| PeakGenerator.RaisePeak | src/main/java/me/lucaspickering/terraingen/world/generate/PeakGenerator.java:45-65 | the peak gets its elevation plus a gain in PEAK_ELEVATION_RANGE (coerced) and its neighbours are smoothed; only elevations change |
| PeakGenerator.NeighbourOfOnePeak | src/main/java/me/lucaspickering/terraingen/world/generate/PeakGenerator.java:52-54 | a world tile next to a peak is not a peak and is next to no other peak |
| PeakGenerator.PeakNotNextToPeak | src/main/java/me/lucaspickering/terraingen/world/generate/PeakGenerator.java:45-49 | a peak still to be raised is not next to any peak already raised |
| PeakGenerator.RaiseStepRest | src/main/java/me/lucaspickering/terraingen/world/generate/PeakGenerator.java:45-66 | raising one more peak leaves every tile that is neither a raised peak nor next to one at its original elevation |
| PeakGenerator.RaiseStep | src/main/java/me/lucaspickering/terraingen/world/generate/PeakGenerator.java:45-66 | raising one more well-separated peak keeps the loop invariant: each raised peak at its coerced raised elevation; each neighbour of it smoothed against the tile beyond, read at its original elevation or, when that tile is next to a raised peak, at its final one; every other tile unchanged |
| PeakGenerator.RaisePeaks | src/main/java/me/lucaspickering/terraingen/world/generate/PeakGenerator.java:45-66 | after the loop, whatever the iteration order, every peak is at its elevation plus a gain in PEAK_ELEVATION_RANGE (coerced); every neighbour of a peak is smoothed against the tile beyond it, read at its original elevation or, when that tile is next to a peak, at its final one; every other tile is unchanged; only elevations change |
| PeakGenerator.Generate | src/main/java/me/lucaspickering/terraingen/world/generate/PeakGenerator.java:25-67 | selection and raising together, with the properties of SelectPeaks and RaisePeaks |
| BeachGenerator.BeachPassFacts | src/main/java/me/lucaspickering/terraingen/world/generate/BeachGenerator.java:17-30 | a tile changes exactly when it is unset or land, at most MAX_BEACH_ELEV high, next to ocean and not already beach, and then it becomes BEACH; ocean is never created or removed |
| BeachGenerator.BeachPassIdempotent | src/main/java/me/lucaspickering/terraingen/world/generate/BeachGenerator.java:16-31 | running the pass a second time changes nothing |
| BeachGenerator.OceanPreserved | src/main/java/me/lucaspickering/terraingen/world/generate/BeachGenerator.java:22-27 | part way through the sweep, every tile is ocean exactly when it was before, so the ocean-neighbour test reads the same as at the start |
| BeachGenerator.SweepIsOrderIndependent | src/main/java/me/lucaspickering/terraingen/world/generate/BeachGenerator.java:17 | whatever order the map yields the tiles in, the in-place sweep ends at the same biomes |
| BeachGenerator.OceanAdjacent | src/main/java/me/lucaspickering/terraingen/world/generate/BeachGenerator.java:22-28 | the scan finds an ocean neighbour exactly when one exists in the world |
| BeachGenerator.VisitTile | src/main/java/me/lucaspickering/terraingen/world/generate/BeachGenerator.java:18-29 | the tile gets the biome the pass gives it, and nothing else on it changes |
| BeachGenerator.VisitAll | src/main/java/me/lucaspickering/terraingen/world/generate/BeachGenerator.java:17-30 | after the loop the biomes are those of the pass, and only biomes change |
| BeachGenerator.Generate | src/main/java/me/lucaspickering/terraingen/world/generate/BeachGenerator.java:16-31 | the new biomes are the pass applied to the old biomes and elevations; elevations and every other field are kept |
| WaterPainter.Candidates | src/main/java/me/lucaspickering/terraingen/world/generate/WaterPainter.java:29-31 | the candidates are exactly the tiles with negative elevation |
| WaterPainter.AsWrittenStep | src/main/java/me/lucaspickering/terraingen/world/generate/WaterPainter.java:37-48 | one pass of the grouping loop as written keeps every candidate and appends one group |
| WaterPainter.AsWrittenLoopNeverExits | src/main/java/me/lucaspickering/terraingen/world/generate/WaterPainter.java:37-48 | with any candidate present, after any number of passes the candidates are all still there and only empty groups have been appended, so the loop never ends |
| WaterPainter.OceanChoiceUnique | src/main/java/me/lucaspickering/terraingen/world/generate/WaterPainter.java:50-57 | which tiles lie in a group of at least MIN_OCEAN_SIZE depends only on the candidates, not on the order of the groups |
| WaterPainter.PaintOceans | src/main/java/me/lucaspickering/terraingen/world/generate/WaterPainter.java:50-57 | every tile of a group of at least MIN_OCEAN_SIZE tiles becomes OCEAN; no other biome and no other field changes |
| WaterPainter.Generate | src/main/java/me/lucaspickering/terraingen/world/generate/WaterPainter.java:27-58 | exactly the tiles in a connected group of at least MIN_OCEAN_SIZE negative-elevation tiles become OCEAN; every other biome and every elevation is kept |
| FreshWaterGenerator.SortByElevation | src/main/java/me/lucaspickering/terraingen/world/generate/FreshWaterGenerator.java:42-45 | the list holds each non-water tile once, and no water tile, in non-increasing elevation |
| FreshWaterGenerator.AddEachFacts | src/main/java/me/lucaspickering/terraingen/world/generate/FreshWaterGenerator.java:83-88 | with distinct targets, each target gets exactly its own amount added and every other tile keeps its water |
| FreshWaterGenerator.RainFacts | src/main/java/me/lucaspickering/terraingen/world/generate/FreshWaterGenerator.java:47 | every listed tile gets RAINFALL exactly once and no other tile gets any |
| FreshWaterGenerator.LowerFacts | src/main/java/me/lucaspickering/terraingen/world/generate/FreshWaterGenerator.java:72-74 | the lower tiles are exactly the adjacent continent tiles strictly lower than the tile, each listed once, never the tile itself |
| FreshWaterGenerator.Shares | src/main/java/me/lucaspickering/terraingen/world/generate/FreshWaterGenerator.java:83-87 | one share per lower tile: the water spread times its elevation drop over the denominator |
| FreshWaterGenerator.SpreadOneFacts | src/main/java/me/lucaspickering/terraingen/world/generate/FreshWaterGenerator.java:70-91 | a tile with a lower neighbour ends with no water, one without keeps everything; each lower tile receives exactly its runoff share, no other tile receives any, and the running totals of the source tile are kept |
| FreshWaterGenerator.RunoffNotConserved | src/main/java/me/lucaspickering/terraingen/world/generate/FreshWaterGenerator.java:78-87 | with the denominator as written (a sum of elevations), a tile at elevation 10 holding 0.5 passes 2.0 to a single neighbour at elevation 2 |
| FreshWaterGenerator.LakePassFacts | src/main/java/me/lucaspickering/terraingen/world/generate/FreshWaterGenerator.java:53-57 | a tile changes only if it was processed and holds at least LAKE_THRESHOLD, and then it is LAKE; every such tile is LAKE; running the pass again changes nothing |
| FreshWaterGenerator.LakePassStep | src/main/java/me/lucaspickering/terraingen/world/generate/FreshWaterGenerator.java:53-57 | processing one more tile adds at most that tile's lake |
| FreshWaterGenerator.AddWaterAt | src/main/java/me/lucaspickering/terraingen/world/generate/FreshWaterGenerator.java:87 | addWater on one tile changes only that tile's water amounts, by the amount added |
| FreshWaterGenerator.ClearWaterAt | src/main/java/me/lucaspickering/terraingen/world/generate/FreshWaterGenerator.java:89 | clearWater on one tile zeroes its level and keeps its running total and every other tile |
| FreshWaterGenerator.CollectLower | src/main/java/me/lucaspickering/terraingen/world/generate/FreshWaterGenerator.java:72-74 | the collected list is exactly the lower tiles |
| FreshWaterGenerator.SumLower | src/main/java/me/lucaspickering/terraingen/world/generate/FreshWaterGenerator.java:78-80 | the computed total is the denominator, the sum of the lower tiles' elevations |
| FreshWaterGenerator.PassRunoff | src/main/java/me/lucaspickering/terraingen/world/generate/FreshWaterGenerator.java:82-88 | every lower tile receives its share and only water amounts change |
| FreshWaterGenerator.SpreadWaterDownhill | src/main/java/me/lucaspickering/terraingen/world/generate/FreshWaterGenerator.java:70-91 | the water after the call is one runoff step from the tile (with the facts of SpreadOneFacts); only water amounts change |
| FreshWaterGenerator.RainOn | src/main/java/me/lucaspickering/terraingen/world/generate/FreshWaterGenerator.java:47 | the rain loop leaves the water of the rain function on values, and only water changes |
| FreshWaterGenerator.SpreadAll | src/main/java/me/lucaspickering/terraingen/world/generate/FreshWaterGenerator.java:48-50 | the runoff loop leaves the water of one runoff step per listed tile, in list order |
| FreshWaterGenerator.SweepDrains | src/main/java/me/lucaspickering/terraingen/world/generate/FreshWaterGenerator.java:48-50 | in a distinct order of non-increasing elevation, every swept tile with a lower neighbour ends the whole sweep with level 0: no later tile is higher, so none passes water back up |
| FreshWaterGenerator.LandSweepDrains | src/main/java/me/lucaspickering/terraingen/world/generate/FreshWaterGenerator.java:42-50 | for the land order generateForContinent builds, every land tile with a lower neighbour ends the runoff dry |
| FreshWaterGenerator.LakesAreSinks | src/main/java/me/lucaspickering/terraingen/world/generate/FreshWaterGenerator.java:53-57 | after rain and runoff in that order, the lake pass only turns tiles with no lower neighbour into lakes |
| FreshWaterGenerator.LakeIfWet | src/main/java/me/lucaspickering/terraingen/world/generate/FreshWaterGenerator.java:54-56 | a tile holding at least LAKE_THRESHOLD becomes LAKE, otherwise it is unchanged |
| FreshWaterGenerator.RainAndRunoff | src/main/java/me/lucaspickering/terraingen/world/generate/FreshWaterGenerator.java:47-50 | rain and then runoff, in list order, and only water changes |
| FreshWaterGenerator.PaintLakes | src/main/java/me/lucaspickering/terraingen/world/generate/FreshWaterGenerator.java:53-57 | the biomes after the loop are those of the lake pass, and nothing but biomes changes |
| FreshWaterGenerator.SortAndDrain | src/main/java/me/lucaspickering/terraingen/world/generate/FreshWaterGenerator.java:42-50 | the land tiles are ordered highest first, rained on and drained in that order, and only water changes |
| FreshWaterGenerator.GenerateForContinent | src/main/java/me/lucaspickering/terraingen/world/generate/FreshWaterGenerator.java:40-61 | the final water is rain then runoff over the land tiles highest first, the final biomes are the lake pass over that water, and elevation, humidity, chunk and river connections are untouched |
| TerraingenTile.ClampElevationIsNearest | src/main/java/me/lucaspickering/terraingen/world/World.java:23 | coercion into ELEVATION_RANGE lands in the range, is the in-range value nearest its argument, keeps in-range values and is idempotent |
| TerraingenTile.ClampHumidityIsNearest | src/main/java/me/lucaspickering/terraingen/world/Tile.java:100-103 | the same facts for humidity coercion |
| TerraingenTile.SetBiomeAll | src/main/java/me/lucaspickering/terraingen/world/generate/ContinentGenerator.java:374 | setBiome on every tile of a set: those tiles get the biome, all others and every other field are kept |
| TerraingenTile.SetElevationAll | src/main/java/me/lucaspickering/terraingen/world/generate/ContinentGenerator.java:294 | setElevation on every tile of a set: those tiles get the coerced elevation, all others and every other field are kept |
| TerraingenTile.EqualsSymmetricTransitive | src/main/java/me/lucaspickering/terraingen/world/Tile.java:180-193 | Tile.equals is symmetric and transitive |
| TerraingenTile.Tile.constructor | src/main/java/me/lucaspickering/terraingen/world/Tile.java:41-46 | a new tile has the given position and chunk, no biome, zero elevation, humidity and water, and no river connections |
| TerraingenTile.Tile.SetChunk | src/main/java/me/lucaspickering/terraingen/world/Tile.java:52-55 | the chunk changes and nothing else |
| TerraingenTile.Tile.SetBiome | src/main/java/me/lucaspickering/terraingen/world/Tile.java:82-85 | the biome changes and nothing else |
| TerraingenTile.Tile.SetElevation | src/main/java/me/lucaspickering/terraingen/world/Tile.java:91-94 | the elevation becomes the coerced value, always in ELEVATION_RANGE, and nothing else changes |
| TerraingenTile.Tile.SetHumidity | src/main/java/me/lucaspickering/terraingen/world/Tile.java:100-103 | the humidity becomes the coerced value, always in HUMIDITY_RANGE, and nothing else changes |
| TerraingenTile.Tile.AddWater | src/main/java/me/lucaspickering/terraingen/world/Tile.java:109-112 | level and running total both grow by the amount, with no sign or biome check |
| TerraingenTile.Tile.RemoveWater | src/main/java/me/lucaspickering/terraingen/world/Tile.java:114-120 | fails with IllegalArgument exactly when more is asked than the tile holds; otherwise removes exactly that amount, the total is kept |
| TerraingenTile.Tile.ClearWater | src/main/java/me/lucaspickering/terraingen/world/Tile.java:122-124 | the level becomes 0 and the running total is kept |
| TerraingenTile.Tile.GetRiverConnection | src/main/java/me/lucaspickering/terraingen/world/Tile.java:130-132 | the connection on an edge, or null exactly when the edge has none |
| TerraingenTile.Tile.AddRiverConnection | src/main/java/me/lucaspickering/terraingen/world/Tile.java:134-136 | the edge now has the connection, other edges keep theirs, at most six edges are connected |
| TerraingenTile.Tile.RemoveRiverConnection | src/main/java/me/lucaspickering/terraingen/world/Tile.java:138-140 | the edge has no connection afterwards, other edges keep theirs |
| TerraingenTile.Tile.Equals | src/main/java/me/lucaspickering/terraingen/world/Tile.java:180-198 | equals is reflexive and equal tiles have equal hash codes |
| TerraTile.ClampFacts | src/main/java/me/lucaspickering/terra/world/Tile.java:94-106 | coercion of elevation and humidity lands in the range, keeps exactly the in-range values and is idempotent |
| TerraTile.EqualsSymmetricTransitive | src/main/java/me/lucaspickering/terra/world/Tile.java:213-226 | Tile.equals is symmetric and transitive |
| TerraTile.Tile.constructor | src/main/java/me/lucaspickering/terra/world/Tile.java:44-49 | a new tile has the given position and chunk, biome NONE, zero elevation, humidity and water, and no river connections |
| TerraTile.Tile.SetChunk | src/main/java/me/lucaspickering/terra/world/Tile.java:55-58 | the chunk changes and nothing else |
| TerraTile.Tile.SetBiome | src/main/java/me/lucaspickering/terra/world/Tile.java:85-88 | the biome changes and nothing else |
| TerraTile.Tile.SetElevation | src/main/java/me/lucaspickering/terra/world/Tile.java:94-97 | the elevation becomes the coerced value, always in ELEVATION_RANGE, and nothing else changes |
| TerraTile.Tile.SetHumidity | src/main/java/me/lucaspickering/terra/world/Tile.java:103-106 | the humidity becomes the coerced value, always in HUMIDITY_RANGE, and nothing else changes |
| TerraTile.Tile.AddWater | src/main/java/me/lucaspickering/terra/world/Tile.java:118-133 | fails with IllegalArgument exactly on a negative amount; on a water biome adds nothing and returns 0, otherwise adds the amount to level and total and returns it; the water elevation rises by what is returned |
| TerraTile.Tile.RemoveWater | src/main/java/me/lucaspickering/terra/world/Tile.java:135-147 | fails with IllegalArgument exactly on a negative amount; otherwise removes and returns the smaller of the amount and the level, so a non-negative level stays non-negative, and the water elevation drops by what is returned |
| TerraTile.Tile.ClearWater | src/main/java/me/lucaspickering/terra/world/Tile.java:149-151 | the level becomes 0, so the water elevation is the elevation; the total is kept |
| TerraTile.Tile.GetRiverConnection | src/main/java/me/lucaspickering/terra/world/Tile.java:157-159 | the connection on an edge, or null exactly when the edge has none |
| TerraTile.Tile.AddRiverConnection | src/main/java/me/lucaspickering/terra/world/Tile.java:161-163 | the edge now has the connection, other edges keep theirs, at most six edges are connected |
| TerraTile.Tile.RemoveRiverConnection | src/main/java/me/lucaspickering/terra/world/Tile.java:165-167 | the edge has no connection afterwards, other edges keep theirs |
| TerraTile.Tile.Equals | src/main/java/me/lucaspickering/terra/world/Tile.java:213-231 | equals is reflexive and equal tiles have equal hash codes |
| TerraChunk.FloorDiv | core/src/main/java/me/lucaspickering/terra/world/util/Chunk.java:78-79 | Math.floorDiv by a positive divisor: the largest q with b * q <= a |
| TerraChunk.FloorDivUnique | core/src/main/java/me/lucaspickering/terra/world/util/Chunk.java:77-80 | the floor quotient by SIDE_LENGTH is the only integer with that property |
| TerraChunk.ChunkPosRoundTrip | core/src/main/java/me/lucaspickering/terra/world/util/Chunk.java:56-80 | a tile position lies in the square createChunkWithTiles fills for a chunk exactly when getChunkPosForTile maps it back to that chunk |
| TerraChunk.ChunksPartition | core/src/main/java/me/lucaspickering/terra/world/util/Chunk.java:77-80 | every tile position lies in its chunk's square and in no other chunk's |
| TerraChunk.OverlayComponentFacts | core/src/main/java/me/lucaspickering/terra/world/util/Chunk.java:30-32 | each component is a colour byte, the 32-bit overflow of the product does not change it, and chunks 128 apart share it |
| TerraChunk.OverlayColorInRange | core/src/main/java/me/lucaspickering/terra/world/util/Chunk.java:30-33 | every overlay colour has byte components and alpha OVERLAY_ALPHA |
| TerraChunk.ChunkEqualsFacts | core/src/main/java/me/lucaspickering/terra/world/util/Chunk.java:104-120 | chunk equality is an equivalence and equal chunks hash alike |
| TerraChunk.CreateChunkWithTiles | core/src/main/java/me/lucaspickering/terra/world/util/Chunk.java:54-68 | the chunk at pos holds exactly TOTAL_TILES new tiles, keyed by their own positions, which are exactly those getChunkPosForTile maps to pos; each tile belongs to the chunk and starts blank |
| TerraChunk.AddRow | core/src/main/java/me/lucaspickering/terra/world/util/Chunk.java:59-64 | the inner loop adds SIDE_LENGTH new tiles, one per y of the row, and keeps the earlier ones |
| TerraChunk.NewTile | core/src/main/java/me/lucaspickering/terra/world/util/Chunk.java:60-63 | the loop body makes a new blank tile at the position, owned by the chunk |
| TerraChunk.Chunk.constructor | core/src/main/java/me/lucaspickering/terra/world/util/Chunk.java:39-43 | the copy constructor keeps exactly the given position, tiles and colour |
| TerraChunk.Chunk.ImmutableCopy | core/src/main/java/me/lucaspickering/terra/world/util/Chunk.java:99-101 | a new chunk with the same position, tiles and colour, equal to the original with the same hash |
| TerraChunk.Chunk.Equals | core/src/main/java/me/lucaspickering/terra/world/util/Chunk.java:104-115 | two chunks are equal exactly when the other is non-null with the same position |
| GroundwarPoint.Origin | src/main/java/me/lucaspickering/groundwar/util/Point.java:15-17 | the no-argument point is at 0, 0, the unit of plus (PlusFacts) |
| GroundwarPoint.PlusMinusExact | src/main/java/me/lucaspickering/groundwar/util/Point.java:45-67 | when nothing overflows, plus and minus are the exact componentwise sum and difference |
| GroundwarPoint.Copy | src/main/java/me/lucaspickering/groundwar/util/Point.java:88-90 | the copy equals the original |
| GroundwarPoint.PlusMinusRoundTrip | src/main/java/me/lucaspickering/groundwar/util/Point.java:45-67 | minus undoes plus and plus undoes minus, overflow or not |
| GroundwarPoint.PlusFacts | src/main/java/me/lucaspickering/groundwar/util/Point.java:45-59 | plus is commutative and associative with the origin as unit, under 32-bit wrap-around |
| GroundwarPoint.PlusAssociative | src/main/java/me/lucaspickering/groundwar/util/Point.java:45-59 | plus is associative under 32-bit wrap-around |
| GroundwarPoint.EqualsFacts | src/main/java/me/lucaspickering/groundwar/util/Point.java:93-108 | equals holds exactly for points with the same coordinates, is false for null, is an equivalence, and equal points hash alike |
| GroundwarPoint.HashCodeExact | src/main/java/me/lucaspickering/groundwar/util/Point.java:106-108 | the hash is x * 31 + y whenever no step overflows |

## Left out

- Rendering, colour modes, `Tile.info`, `WorldHandler`, threading and the world screen are not modelled. They draw or schedule work and do not shape the world.
- `Point.distanceTo` is not modelled: it takes a floating-point square root.
- WorldHelper.CorrectRounding: the screen-to-fraction conversion and `Math.round` of `pixelToTile` are float arithmetic. The three rounded coordinates and the three fractions are inputs, and only the correction step is modelled, on exact reals.
- Float and double rounding is not modelled anywhere: water amounts and humidity are exact reals.
- Iteration order of hash sets and maps is unspecified in the source. Each loop over one is proved for every order (the sweep lemmas, and `forall` over the set), or it visits a fixed direction order where the source uses an `EnumMap`.
- The weighted random choice of a biome is modelled as any biome with positive weight in BIOME_WEIGHTS. Weights only change the odds, which a nondeterministic model does not track.
- ContinentGenerator.ContinentGenerator.Generate: requires a generator with no continents and an empty map. The source creates a fresh generator per world, and its map field starts empty.
- ContinentGenerator.ContinentGenerator.GenerateContinents: requires an empty continent list and the whole world in the pool, as generate creates them; the stage facts are stated for that start only.
- ContinentGenerator.ContinentGenerator.GenerateOceanFloor: takes `continent.allAdjacents()` (ContinentGenerator.java:298) as the continent's frontier in the whole world. The continents come from `allTiles.cluster()` (ContinentGenerator.java:148), and the comment at ContinentGenerator.java:177-179 suggests a cluster lives in the context of the set that was clustered. Under that reading `allAdjacents` would only reach tiles of that set, and the -6 coast ring would reach only tiles that smoothing removed, not the other pool tiles next to a continent. `Cluster` is not part of this model's source files, so the cluster's context is not modelled, and the coast rule proved here holds under the world-context reading only.
- ContinentGenerator.ContinentGenerator.GenerateContinents: the javadoc of generateContinents says the pool ends as the tiles neither in nor next to a continent. The code removes only the continent tiles, and generateOceanFloor relies on that. The model follows the code: pool tiles next to a continent are in the pool and become coast.
- Continents emptied by smoothing: the greatest smooth part of a continent can be empty. The source keeps such a continent in its list, and so does the model; no contract claims continents stay non-empty after cleanup.
- ContinentGenerator.SelectTiles: only spacing 0 is modelled, the value paintContinent passes. `Cluster.selectTiles` is not part of this model's source files.
- FreshWaterGenerator.SpreadWaterDownhill: requires that the denominator is non-zero whenever the tile has a lower neighbour (`RunoffDefined`). In the source a zero sum of elevations divides by zero in floating point and spreads infinities or NaN, which exact reals cannot represent. A negative denominator is allowed and modelled as written.
- FreshWaterGenerator.GenerateForContinent: carries the same non-zero-denominator requirement for every land tile of the continent; water tiles are never swept, so nothing is required of them. `FreshWaterGenerator.generate`, the loop over the world's continents, is not modelled because the continent class is not part of this model's source files.
- Rivers are a TODO in generateForContinent, and spreadWaterUphill has an empty body. Neither is modelled.
- The terra `World` is not part of this model's source files. Its ELEVATION_RANGE is taken to be the terraingen one (-50 to 75), and HUMIDITY_RANGE in both packages is taken to be 0 to 1.
- WorldHelper.GetTilesInRange: the source counts layers with a 32-bit `int i` while `i <= range` (WorldHelper.java:140). At `range == Integer.MAX_VALUE` the counter wraps to a negative value that still passes the test, so the Java method never returns. The model's counter is unbounded and its loop ends with `Ok(Ball(range))` there too; the only caller in the core passes range 2.
- TerraChunk.CreateChunkWithTiles: the int products `pos.x * SIDE_LENGTH` and the loop bounds are unbounded integers. Chunk positions far enough out for them to overflow are not modelled.
- TerraChunk.FloorDiv: only a positive divisor is modelled, since SIDE_LENGTH is the only divisor used.
- A chunk's TileSet is modelled as a map from position to tile, and the chunk that createChunkWithTiles fills before copying is modelled by a local map. `TileSet.immutableCopy` is the same map, and the copy's rejection of later additions is not modelled.
- `HexPoint.hashCode` is not part of this model's source files. Chunk and tile hashes are a function `PointHash` of the position, which is all that equals and hashCode rely on.
- GroundwarPoint.EqualsFacts: `equals` on an object that is not a Point is modelled like null, as an absent argument.
- Aliasing between tiles is ruled out by `Positioned`: each position's tile is a distinct object that knows its own position, as the world's tile map guarantees.
- `Cluster`, `TileSet` and `Direction` are modelled only by the operations the core calls on them.

## Findings

| source | as written | input that shows it | evidently intended | confidence | as-written member | corrected member |
|---|---|---|---|---|---|---|
| src/main/java/me/lucaspickering/terraingen/world/generate/WaterPainter.java:37-48 | the grouping loop never removes a candidate and closes an empty group on every pass, so it never exits when a candidate exists | any world with at least one tile of negative elevation | group the negative-elevation tiles into connected clusters, then paint every cluster of at least MIN_OCEAN_SIZE tiles as ocean | high (proved; not executed) | WaterPainter.AsWrittenLoopNeverExits | WaterPainter.Generate |
