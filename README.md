# Archipelago generator core, modelled in Dafny

This project models the discrete, grid-based core of the `archipelago`
map generator and proves properties of it. Each part takes an elevation
grid, or cell labels plus an adjacency list, and produces new grids or
lists by loops:

- **Hydrology** (`archipelago_generator/rivers.py`, and its copy in
  `archipelago/generator.py`), module `Rivers`:
  - each tile's steepest strictly-lower 4-neighbour (its downslope);
  - water flux accumulated in descending elevation order;
  - rivers traced from high-flux sources down to sea level.
- **Road router** (`archipelago_generator/roads.py`), module `Roads`:
  - A* on a 4-neighbour cost grid;
  - `build_roads`, which routes consecutive cities and paints their land
    tiles.
- **City placer** (`archipelago_generator/cities.py`), module `Cities`:
  - row-major candidate collection;
  - a greedy spacing pass over a shuffled candidate order.
- **Region flood fill and border pairs**
  (`archipelago_generator/borders.py`), module `Borders`:
  - `compute_adjacency`, `unite_regions` and `compute_borders`;
  - the geometry is abstracted to a "touches" predicate and a "pieces"
    function.
- **Biome tables**, module `Biomes`: the Whittaker cascade of
  `archipelago_generator/biomes.py`.
- **The generator's grid passes** (`archipelago/generator.py`), module
  `Generator`:
  - integer Voronoi provinces and Lloyd relaxation of their seeds;
  - province border marking;
  - the generator's river tracing (sea level fixed at 0.26, no line list);
  - one city per province;
  - the four-glyph biome map.

Shared modules:

- `Common` (`common.dfy`): tiles `(y, x)` and points `(x, y)`, grids as
  `seq<seq<T>>`, the neighbour order up, down, left, right, row-major
  enumeration, and `Snapshot`, which turns a filled `array2` into a grid.
- `Ordering` (`ordering.dfy`): Python's stable `list.sort` on tile lists,
  descending by a grid key.

Form of the model:

- Grids that the source fills with loops are `array2` outputs of methods
  with loop invariants.
- Lists and sets that the source mutates are `seq`, `set` and `map`
  variables of those methods.
- The pure decision functions are Dafny functions.
- Elevations, fluxes and the other floats are `real`. Outside the road
  router the model only compares them or adds small whole numbers, which
  float64 does exactly too. The road costs and A* sums are the exception:
  "## Left out" says what rounding they leave out.

Where the code and a plain reading of it part ways, the model follows the
code:

- `biomes.py:58` is not dead code. In the hot band (`t >= 0.7`), moisture
  exactly 0.05 passes the `m < 0.05` test at line 34. It then reaches line
  58, where `m > 0.05` fails, so the label is "scorched". The lemma
  `Biomes.HotScorched` states this.
- In `archipelago/generator.py:120`, `if best:` tests a non-empty tuple.
  It behaves exactly like `is not None` at `rivers.py:47`, so both files
  share `Rivers.ComputeWaterFlux`.

## Model

| member | source | states |
|---|---|---|
| Rivers.ScanDownSpec | archipelago_generator/rivers.py:40-46 | After the first i directions are scanned, `best` is none exactly when no scanned in-bounds neighbour is strictly lower, and then `min_elev` is still the tile's own elevation. Otherwise `best` is an adjacent in-bounds tile, strictly lower than the tile, no higher than any scanned neighbour, and strictly lower than every neighbour scanned before it. |
| Rivers.DownslopeSpec | archipelago_generator/rivers.py:38-48 | A tile's downslope is "none" (-1, -1) iff no in-bounds 4-neighbour is strictly lower. Otherwise it is an in-bounds 4-neighbour that is strictly lower and the lowest of the neighbours; ties go to the first in the order up, down, left, right. |
| Rivers.SteepestNeighbour | archipelago_generator/rivers.py:40-48 | The direction loop returns exactly the tile's downslope. |
| Rivers.DownslopeRow | archipelago_generator/rivers.py:39-48 | One pass of the `x` loop gives every tile of row `y` its downslope and leaves the other rows unchanged. |
| Rivers.DownslopeGrid | archipelago_generator/rivers.py:37-48 | Every entry of the `downslope` array is its tile's downslope. |
| Rivers.Drain | archipelago_generator/rivers.py:44-48 | The walk along downslope from `t` starts at `t`. It has at most one more tile than there are tiles strictly lower than `t`, because elevation strictly drops at every step. |
| Rivers.DrainFacts | archipelago_generator/rivers.py:44-48 | That walk stays on the map. Each step goes to the current tile's downslope, which is strictly lower. The walk ends at a tile with no downslope. |
| Rivers.LowerBound | archipelago_generator/rivers.py:36-48 | Fewer than height * width tiles lie strictly below any tile. |
| Rivers.DrainLength | archipelago_generator/rivers.py:44-48 | Following downslope from any tile reaches a tile with no downslope in fewer than height * width steps. |
| Rivers.Flux | archipelago_generator/rivers.py:50-56 | A tile's flux is 1 plus the flux of every tile whose downslope is that tile, so it is at least 1. |
| Rivers.DrainersAreNeighbours | archipelago_generator/rivers.py:53-56 | A tile that drains into `t` is an adjacent tile strictly higher than `t`. |
| Rivers.InflowAdd | archipelago_generator/rivers.py:53-56 | Processing tile `s` adds exactly the flux of `s` to the inflow of its downslope target, and changes no other tile's inflow. |
| Rivers.InflowComplete | archipelago_generator/rivers.py:52-56 | Once every strictly higher tile has been processed, a tile's inflow is final. |
| Rivers.OrderFacts | archipelago_generator/rivers.py:51-52 | The stable sort by `-elevation` of the row-major tile list lists every tile once: higher tiles first, equal elevations in row-major order. |
| Rivers.ElevationOrder | archipelago_generator/rivers.py:51-52 | The computed `order` lists every tile once: higher first, ties in row-major order. |
| Rivers.NextInOrder | archipelago_generator/rivers.py:52-56 | When the pass reaches the k-th tile of `order`, that tile has not been processed and its inflow is already final. |
| Rivers.AllProcessed | archipelago_generator/rivers.py:53-56 | After the pass, every tile of the map has been processed. |
| Rivers.PassOn | archipelago_generator/rivers.py:54-56 | The `+=` step keeps every flux equal to 1 plus the inflow from the processed tiles, now including `t`. |
| Rivers.AccumulateFlux | archipelago_generator/rivers.py:50-56 | Every entry of `water_flux` ends as its tile's flux. |
| Rivers.ComputeWaterFlux | archipelago_generator/rivers.py:36-58 | Both arrays have the map's shape. Each `downslope` entry is its tile's downslope, and each `water_flux` entry is its tile's flux. The same holds for the generator's copy, archipelago/generator.py:108-129. |
| Rivers.Log2Floor | archipelago_generator/rivers.py:89 | `2^r <= n < 2^(r+1)`, i.e. `r` is floor(log2 n). |
| Rivers.RiverWidth | archipelago_generator/rivers.py:89 | `int(max(1, log2(f)))` is at least 1. It is 1 for f < 2, and floor(log2 f) otherwise. |
| Rivers.Candidates | archipelago_generator/rivers.py:77 | A tile is kept iff it is in the scanned list and its flux reaches `min_flux`. |
| Rivers.CandidatesOrdered | archipelago_generator/rivers.py:77 | Filtering the row-major tile list keeps it in strict row-major order. |
| Rivers.SourceOrder | archipelago_generator/rivers.py:77-78 | `coords` holds exactly the tiles whose flux reaches `min_flux`: flux descending, ties in row-major order. |
| Rivers.SourcesFacts | archipelago_generator/rivers.py:77-78 | The sources are exactly the map tiles whose flux reaches `min_flux`, each once, by flux descending with ties in row-major order. |
| Rivers.WalkFacts | archipelago_generator/rivers.py:82-94 | The walk from a source is empty iff the source is below sea level or already visited. Otherwise it starts at the source and visits only unvisited land tiles, none twice, each the downslope of the one before. It ends where the downslope is none, is below sea level, or has been visited. |
| Rivers.WalkFrom | archipelago_generator/rivers.py:84-94 | The same facts, for the rest of a walk already under way. |
| Rivers.TraceFrom | archipelago_generator/rivers.py:82-94 | The `while` loop sets exactly the walk's tiles to the river id and their `river_width`, adds them to `visited`, and appends their (x, y) to the line. |
| Rivers.TraceStep | archipelago_generator/rivers.py:80-97 | One source keeps the tracing invariants. Ids and widths mark exactly the visited land tiles. The visited set is closed under land downslope. Every visited tile is a source or the downslope of a visited tile. The kept lines stay valid. A land source ends up visited. |
| Rivers.OldLinesKept | archipelago_generator/rivers.py:80-97 | Marking a walk over unvisited tiles with a fresh id keeps every earlier line a river line with its old, smaller id. The fresh id marks exactly the walk. |
| Rivers.NewLine | archipelago_generator/rivers.py:95-96 | The walk's line, when it has two points or more, is a river line whose id is the fresh id. |
| Rivers.LinesJoin | archipelago_generator/rivers.py:96 | Appending a line with a larger id than every earlier line keeps the lines in increasing id order. |
| Rivers.LinesStep | archipelago_generator/rivers.py:95-97 | A line is kept only if it has more than one point. Every kept line is a downslope chain of (x, y) points starting at a source, and the lines stay in increasing id order. |
| Rivers.TraceDone | archipelago_generator/rivers.py:80-99 | Once every source has been processed, the marks satisfy `RiverMarks`. |
| Rivers.TraceRound | archipelago_generator/rivers.py:82-96 | Tracing from an unvisited source `s` with id `id` adds exactly the tiles of its walk to `visited`. It gives each of them `id` and its `RiverWidth`, and leaves every other tile of both maps as it was. The walk's line is appended iff the walk has more than one tile. |
| Rivers.TraceSource | archipelago_generator/rivers.py:80-97 | One pass over `coords[k]`. A visited source changes nothing, not even `river_id`. Otherwise the maps, `visited` and `lines` change exactly as tracing its walk says, and `river_id` goes up by one even when the line is dropped. The state then matches the walks of the first k + 1 sources. |
| Rivers.TraceLoop | archipelago_generator/rivers.py:73-97 | Starting from zeroed maps, `river_id = 1`, no lines and nothing visited, the loop over `coords` leaves exactly the state its walks define. Each walk's tiles have id j + 1 (the last walk through a tile wins) and their widths, the other tiles 0. `visited` is the union of the walks, `river_id` is one more than the number of walks, and the lines are those of the walks with two tiles or more, in order. |
| Rivers.WalksDisjoint | archipelago_generator/rivers.py:81-86 | The walks never share a tile: a walk stops at the first visited tile, so it avoids every earlier walk. |
| Rivers.IdOfDisjoint | archipelago_generator/rivers.py:87 | Over walks that share no tile, a tile's id is j + 1 exactly when it lies on the j-th walk, and 0 exactly when it lies on none. Ids range over 0 .. number of walks. |
| Rivers.RiverWalkIds | archipelago_generator/rivers.py:80-97 | In `trace_rivers` a tile has id j + 1 exactly when it lies on the walk of the j-th untraced source, and 0 exactly when no walk covers it. |
| Rivers.RiverWalksMeaning | archipelago_generator/rivers.py:80-99 | The ids, widths and lines of the walks of `trace_rivers` satisfy `RiverMarks` and `RiverLines`, the promises listed for `Rivers.TraceRivers`. |
| Rivers.TracedDone | archipelago_generator/rivers.py:80-99 | After the loop over all sources, the maps and lines equal those of the walks: each tile's id is its `IdOf` over the walks, and the lines are the walks' lines. So `RiverMarks` and `RiverLines` hold. |
| Rivers.TraceRivers | archipelago_generator/rivers.py:61-99 | Each tile's id is exactly its id over the walks from the sorted sources: j + 1 on the j-th walk, 0 on none. The lines are exactly those walks' lines with two points or more, in order. Hence ids are non-negative and mark only tiles at or above sea level. A marked tile's width is its `RiverWidth` and an unmarked tile's is 0. Every land tile whose flux reaches `min_flux` is marked. The land downslope of a marked tile is marked. Every marked tile is a source or the downslope of a marked tile. Every line has at least 2 points linked by downslope, and lines come in increasing id order. |
| Rivers.ComputedInputs | archipelago_generator/rivers.py:104-110 | The flux and downslope grids of any terrain are valid inputs of `trace_rivers`: every downslope target lies on the map. |
| Rivers.ComputeRivers | archipelago_generator/rivers.py:104-110 | `compute_rivers` gives exactly the ids and lines of the walks of `trace_rivers` over the terrain's own flux and downslope, with the default minimum flux 3.0 and the given sea level, and so satisfies all of `trace_rivers`'s promises. |
| Ordering.Insert | archipelago_generator/rivers.py:52 | Inserting into the sorted list keeps the same elements (as a multiset) plus the new one. |
| Ordering.SortDesc | archipelago_generator/rivers.py:78 | The sorted list is a permutation of its input. |
| Ordering.InsertSorted | archipelago_generator/rivers.py:52 | Inserting a tile that comes after the sorted list's tiles in row-major order keeps the list sorted: key descending, ties in row-major order. |
| Ordering.SortDescOrdered | archipelago_generator/rivers.py:78 | Sorting a row-major-ordered list gives key descending, with ties in row-major order: the stable `sort(reverse=True)`. |
| Roads.CostFacts | archipelago_generator/roads.py:95-96 | Tiles below sea level cost 1e6 and land tiles cost 1 + 3e. Every cost is positive when 3 * sea > -1, and at least 1 when sea >= 0. |
| Roads.HeurAdmissible | archipelago_generator/roads.py:24-25 | When every step costs at least 1, the Manhattan distance between a walk's endpoints never exceeds the walk's cost. |
| Roads.HeurConsistent | archipelago_generator/roads.py:24-25 | For adjacent `a` and `b`: heur(a, goal) <= cost(b) + heur(b, goal). |
| Roads.PopMin | archipelago_generator/roads.py:28 | `heappop` returns an entry that no other entry precedes in (priority, (y, x)) order. The remaining entries are the rest of the heap. |
| Roads.RelaxKeeps | archipelago_generator/roads.py:35-40 | Recording an improved cost and predecessor for an in-bounds neighbour keeps the search tree. `start` stays at cost 0 with no predecessor. Every linked tile is an in-bounds neighbour of its predecessor and costs at least the predecessor's cost plus the step. |
| Roads.Relax | archipelago_generator/roads.py:35-40 | If the neighbour is new or cheaper through `current`, it gets that cost and predecessor and is pushed with priority `g + heur`. Otherwise nothing changes. Known costs never grow. Afterwards the neighbour is reached, the old heap entries stay in front, and a newly reached tile has been pushed. |
| Roads.Expand | archipelago_generator/roads.py:31-40 | The four-direction loop keeps the search tree. It only adds keys and only lowers costs, and every open entry is a reached tile. Every in-bounds neighbour of `current` ends up reached. The old heap entries stay in front, and every newly reached tile has been pushed. |
| Roads.ExpandDir | archipelago_generator/roads.py:32-40 | One direction: an in-bounds neighbour is relaxed and ends up reached. The search tree is kept, keys only grow, costs only fall, the old heap entries stay in front, and newly reached tiles are pushed. |
| Roads.FrontierStep | archipelago_generator/roads.py:27-40 | One turn of `while open_set` keeps the fact that every reached tile either has a heap entry or has all its in-bounds neighbours reached. |
| Roads.ReachedAll | archipelago_generator/roads.py:27-40 | When every reached tile has all its in-bounds neighbours reached and the in-bounds start is reached, every tile of the grid is reached. So a heap that empties has reached every in-bounds goal. |
| Roads.ChainDistinct | archipelago_generator/roads.py:46-50 | The reconstructed path climbs strictly in `g`, so no tile repeats. |
| Roads.ChainRoute | archipelago_generator/roads.py:46-48 | A path along `came_from` links is a walk of in-bounds 4-neighbours. |
| Roads.ReconstructFacts | archipelago_generator/roads.py:46-51 | The reversed chain runs from `start` to `goal` along `came_from`, has distinct tiles, and costs at most `g[goal]`. |
| Roads.BackTrackFrom | archipelago_generator/roads.py:46-48 | The `while cur != start` loop collects the tiles from the goal back along `came_from` links, stopping before the start. They lie on the grid and cost at most `g[goal] - g[start]`. |
| Roads.Reconstruct | archipelago_generator/roads.py:42-51 | The path is [] iff the goal is neither the start nor reached. `start == goal` gives [start]. Otherwise the path runs from start to goal over distinct 4-neighbours linked by `came_from`, and costs at most `g[goal]`. |
| Roads.AStar | archipelago_generator/roads.py:15-51 | The same promises for the path `_astar` returns, together with the final search tree. Unless the pop budget ran out, the path from an in-bounds start to an in-bounds goal is never empty. |
| Roads.RoutePair | archipelago_generator/roads.py:101 | The route of cities k and k + 1 starts and ends at them and steps over 4-neighbours. Equal cities give the one-tile route, and the route is non-empty for in-bounds cities unless the pop budget ran out. |
| Roads.MarkSamples | archipelago_generator/roads.py:114-119 | A tile is set iff it was set before, or it is a sampled tile at or above sea level. No tile is cleared. |
| Roads.PaintRoute | archipelago_generator/roads.py:102-119 | A route of at least 2 tiles has its land samples set; a shorter one is skipped. The mask stays exactly the land samples of the routes so far. |
| Roads.BuildRoads | archipelago_generator/roads.py:75-121 | The mask has the map's shape. There is one route per consecutive pair of cities, and none with fewer than 2 cities. Each route runs from city k to city k + 1 over 4-neighbours, and equal cities give the one-tile route. Unless a pop budget ran out, every pair of in-bounds cities gets a non-empty route. A tile is set iff it is land and a sample of a route with at least 2 tiles. |
| Cities.NearWaterSquare | archipelago_generator/cities.py:27-33 | The `any` over the nine offsets holds iff some in-bounds tile of the 3x3 block around the tile lies below sea level. |
| Cities.FilterMembers | archipelago_generator/cities.py:24-34 | A tile is kept iff it is in the scanned list and suitable. |
| Cities.CandidateListFacts | archipelago_generator/cities.py:24-34 | The candidates are exactly the suitable tiles: strictly between sea level and 0.8, and on a river or next to water. Each appears once, in row-major order. |
| Cities.CollectRow | archipelago_generator/cities.py:25-34 | One pass of the `x` loop collects the suitable tiles of row `y`, in order. |
| Cities.CollectCandidates | archipelago_generator/cities.py:23-34 | The nested loops build exactly the row-major candidate list. |
| Cities.KeptSpaced | archipelago_generator/cities.py:39-42 | Any two cities that the greedy pass keeps are at least `min_dist` apart, as squared integer distances. |
| Cities.KeptSubseq | archipelago_generator/cities.py:39-42 | The kept cities are a subsequence of the shuffled candidates. |
| Cities.KeptMaximal | archipelago_generator/cities.py:40-42 | A candidate is skipped only if it is closer than `min_dist` to a city kept before it. |
| Cities.KeptPrefix | archipelago_generator/cities.py:40-42 | One more candidate is appended iff it keeps its distance from every kept city. |
| Cities.Greedy | archipelago_generator/cities.py:39-44 | The loop keeps the greedy result of the candidates seen. It stops early only once `n_cities` cities are kept, so `n_cities = 0` never stops it. It keeps at most `n_cities` when `n_cities >= 1`. The result is spaced and a subsequence. |
| Cities.PlaceCities | archipelago_generator/cities.py:11-45 | Every city is suitable. The cities are spaced, and there are at most `n_cities` when `n_cities >= 1`. The result is the greedy pass over a prefix of the shuffled candidates. That prefix is shorter than the whole list only when `1 <= n_cities` cities were kept, so `n_cities = 0` never stops the pass. |
| Borders.ComputeAdjacency | archipelago_generator/borders.py:14-31 | `v` is in `neighbors[u]` iff `v < n` and the lower-indexed of the two cells touches the other. The result is symmetric and irreflexive. |
| Borders.Visit | archipelago_generator/borders.py:45-49 | The loop over `neighbors[u]`, in any order, gives `cur` to exactly the same-biome neighbours of `u` that had no region, and changes no other cell. It pushes exactly those cells, once each, after the queue's old contents, which stay as they were. |
| Borders.VisitAll | archipelago_generator/borders.py:46-49 | After the whole of `neighbors[u]`, in any order, exactly the same-biome neighbours without a region have `cur`, every other cell is as before, and exactly those cells were pushed after the old queue. |
| Borders.VisitOne | archipelago_generator/borders.py:46-49 | One neighbour `v`: if it has no region and u's biome it gets `cur` and is pushed, otherwise nothing changes. |
| Borders.FloodStep | archipelago_generator/borders.py:44-49 | One turn of `while queue`: pop and visit. It keeps the fill invariant, and either some unlabelled cell gets labelled or the queue shrinks, so the loop ends. |
| Borders.Fill | archipelago_generator/borders.py:44-49 | The loop runs until the queue is empty. Throughout, only cells without a region take the new id, and each of them is reached from `i` by a chain of such cells. |
| Borders.Flood | archipelago_generator/borders.py:42-50 | The stack flood fill from cell `i` gives `cur` to exactly the cells a chain of same-biome neighbours without a region reaches from `i`, including `i`. Every other cell keeps its id. |
| Borders.FloodExact | archipelago_generator/borders.py:42-50 | When the queue is empty, every cell with the new id is reachable from `i` along free cells, and the labelled set is closed under same-biome neighbours. Then the new id marks exactly the cells free chains reach from `i`. |
| Borders.RootedStep | archipelago_generator/borders.py:38-50 | A fill from `i` keeps the fact that a same-biome chain leads from each region's first cell to every cell of the region, with `i` the first cell of the new region. |
| Borders.UniteRegions | archipelago_generator/borders.py:34-51 | Every cell gets an id in [0, number of regions). Each region is numbered by its lowest-index cell and shares that cell's biome. A same-biome neighbour's id is never higher. A chain of same-biome neighbours leads from each region's first cell to every cell of it. So with biomes [1, 1] and no adjacency the two cells get ids 0 and 1. |
| Borders.RegionsAreComponents | archipelago_generator/borders.py:34-51 | With symmetric adjacency, as `compute_adjacency` builds it, two cells get the same id iff a chain of same-biome neighbours joins them: the regions are exactly the same-biome components. |
| Borders.ReachBack | archipelago_generator/borders.py:29-30 | With symmetric adjacency a same-biome chain from a to b gives one from b to a. |
| Borders.ReachJoin | archipelago_generator/borders.py:45-49 | Same-biome chains from a to b and from b to c join into one from a to c. |
| Borders.FirstOfRegion | archipelago_generator/borders.py:38-50 | A cell is the first of its region iff it is the region's recorded first cell. The ids used before it are then exactly 0 .. id - 1, so ids are consecutive in order of each region's lowest cell. |
| Borders.SameRegionSameBiome | archipelago_generator/borders.py:47-48 | Two cells with the same region id have the same biome. So cells of different biomes get different ids, which is what tests/test_borders.py:17-18 checks. |
| Borders.NeighboursUnite | archipelago_generator/borders.py:45-49 | With symmetric adjacency, adjacent cells of equal biome get the same region id. |
| Borders.BordersOf | archipelago_generator/borders.py:87-92 | The pass for cell `i` adds exactly the pairs (i, j) with `j > i`, `j` a neighbour and a different biome, and appends their pieces. The pairs and lines found before stay as they were, in front. |
| Borders.BorderLoop | archipelago_generator/borders.py:88-92 | After every neighbour of `i`, in any order, the pairs are exactly the border pairs below `i` plus those (i, j) with `j > i` and a different biome. They stay ascending, with the earlier pairs and lines in front, and the lines are the pairs' pieces. |
| Borders.BorderStep | archipelago_generator/borders.py:88-92 | One neighbour `j` of `i`: the pair (i, j) and its pieces are appended iff `j > i` and the biomes differ, and nothing else changes. |
| Borders.ComputeBorders | archipelago_generator/borders.py:75-101 | The lines are the pieces of exactly the adjacent pairs i < j with different biomes. Each pair is taken once, in ascending order of `i`. |
| Biomes.BiomesListed | archipelago_generator/biomes.py:9-19 | `BIOMES` lists every label exactly once, and no two labels share a name. |
| Biomes.ClassifyRegion | archipelago_generator/biomes.py:30-62 | The cascade picks exactly the label whose (temperature, moisture) box holds the cell. The boxes cover the plane without overlapping, and land is never "ocean". |
| Biomes.HotScorched | archipelago_generator/biomes.py:56-58 | For t >= 0.7 the label is "scorched" iff m <= 0.05. The branch at line 58 is therefore reachable, at m = 0.05. |
| Biomes.CellBiome | archipelago_generator/biomes.py:26-28 | A cell is "ocean" iff it is not land. |
| Biomes.ClassifyBiomes | archipelago_generator/biomes.py:22-63 | There is one label per cell: "ocean" off the land mask, the cascade on it. |
| Generator.ArgminPrefix | archipelago/generator.py:18-19 | `np.argmin` over the first n squared distances returns a least one, at the lowest index among equals. |
| Generator.Nearest | archipelago/generator.py:35-36 | The chosen seed is at least squared distance from the tile, with ties going to the lowest index. |
| Generator.NearestUnique | archipelago/generator.py:35-36 | These two conditions determine the seed index uniquely. |
| Generator.ProvinceRow | archipelago/generator.py:34-36 | One pass of the `x` loop labels row `y` with nearest-seed indices and leaves the other rows unchanged. |
| Generator.AssignProvinces | archipelago/generator.py:30-37 | The map has shape (height, width). Every tile holds its nearest seed's index, which lies in [0, number of seeds). |
| Generator.CellOfInRange | archipelago/generator.py:16-21 | Every point gathered in `cell_points` is a tile of the grid. |
| Generator.CentroidInRange | archipelago/generator.py:24-26 | The truncated mean of grid points is a grid tile. |
| Generator.RelaxedInRange | archipelago/generator.py:22-26 | One relaxation round keeps every seed in [0, width) x [0, height). |
| Generator.CellRow | archipelago/generator.py:17-21 | One pass of the `x` loop appends each tile of row `y` to its nearest seed's cell, in scan order. |
| Generator.Relax | archipelago/generator.py:14-26 | A round moves each seed with a non-empty cell to the truncated mean of its cell's coordinates, and leaves seeds with empty cells where they are. |
| Generator.LloydRelaxation | archipelago/generator.py:7-27 | There are as many seeds as initial seeds, and they stay in [0, width) x [0, height). With no iterations the initial seeds come back unchanged. Otherwise the result is `iterations` relaxation rounds. |
| Generator.BorderSymmetric | archipelago/generator.py:44-49 | Two adjacent in-bounds tiles of different provinces are both marked. |
| Generator.BorderWitness | archipelago/generator.py:46-49 | A marked tile has an adjacent in-bounds tile of another province. |
| Generator.BorderRow | archipelago/generator.py:45-49 | One pass of the `x` and direction loops marks a tile of row `y` iff some in-bounds 4-neighbour has a different province. |
| Generator.MarkBorders | archipelago/generator.py:40-50 | The mask has the map's shape. A tile is marked iff some in-bounds 4-neighbour lies in a different province. |
| Generator.TraceRivers | archipelago/generator.py:132-154 | The `trace_rivers` promises, with the sea level fixed at 0.26 and no line list. Each tile's id is exactly its id over the walks from the sorted sources. |
| Generator.CandidatesFacts | archipelago/generator.py:161-172 | A province's candidates are exactly its tiles that are city sites at sea level 0.26. Each appears once, in row-major order. |
| Generator.CollectProvinceRow | archipelago/generator.py:163-172 | One pass of the `x` loop collects row `y`'s candidates of the province, in order. |
| Generator.CollectProvince | archipelago/generator.py:161-172 | The nested loops build the province's candidate list. |
| Generator.NearestDist2 | archipelago/generator.py:176 | The `min` is no more than the squared distance to any placed city, and equals one of them. |
| Generator.Farthest | archipelago/generator.py:174-177 | `max(..., key=...)` returns a candidate with the largest distance to its nearest placed city, the first such in the list. |
| Generator.OwnersFacts | archipelago/generator.py:160-178 | The provinces that get a city are exactly those with a candidate, each once, in ascending id. |
| Generator.ProvinceCitiesSites | archipelago/generator.py:164-172 | Every city lies in its own province. Its elevation is strictly between 0.26 and 0.8, and it is on a river or has water in its 3x3 block. |
| Generator.PlaceCities | archipelago/generator.py:157-179 | There is one city per province with a candidate, in ascending id. Each is the first candidate of its province farthest from the cities placed before it. |
| Generator.LabelRegions | archipelago/generator.py:182-203 | The cascade picks exactly the label whose (elevation, temperature) region holds the cell: "ocean" below 0.26, "plain" up to 0.8, above that "mountain" if t > 0.3 and "snow" otherwise. Every label it returns has a glyph. |
| Generator.BiomeRow | archipelago/generator.py:194-203 | One pass of the `x` loop labels row `y` by elevation and temperature, and leaves the other rows unchanged. |
| Generator.AssignBiomes | archipelago/generator.py:190-204 | There is one label per tile, decided by elevation and temperature only. Rainfall is read and never used. |

## Left out

- Noise-driven fields are inputs, not computed: `generate_elevation`, `_perlin`, `smooth_coasts`, `generate_rainfall`, `compute_temperature`, elevation.py, climate.py and island_mask.py. They rest on the Perlin noise library and on float normalisation.
- points.py, voronoi.py and rasterizer.py are not modelled. They are float geometry over scipy and shapely.
- `_distort_line` and `LineString.interpolate` are noise plus float geometry. `Roads.BuildRoads` takes the tiles sampled along a route as a function parameter `sample`. `Borders.ComputeBorders` takes the line pieces of a cell pair as a function parameter `pieces`.
- `Borders.ComputeAdjacency`: the shapely bounding-box, `touches` and `intersection` tests are one abstract predicate `touching`.
- Random numbers are parameters:
  - `Cities.PlaceCities` takes `rng.shuffle` as any function that permutes its input, so the fallback `default_rng(0)` is not modelled.
  - `Generator.LloydRelaxation` takes the seeds drawn by `rng.integers` as an initial seed list that lies on the grid.
- `Generator.PlaceCities` takes `np.unique(province_map)` as a parameter `ids`. Ascending order is assumed only where the order of cities is stated (`Generator.OwnersFacts`). Ids that occur nowhere in the map have no candidates and add nothing.
- Not modelled: `generate_world`, `generate_archipelago`, the renderers, the command line, moisture.py (identity) and the determinism tests. The tests add nothing, because Dafny functions are deterministic.
- Roads.AStar, Roads.BuildRoads: the heap loop runs for at most `maxPops` pops. The source loop ends because the grid is finite and costs are positive, but with real costs that needs an argument the model does not make. So a route between in-bounds cities is promised only when the budget did not run out, which the ghost flag `exhausted` reports. Optimality of the path found is not proved. The path is proved to cost no more than `g[goal]`.
- Roads.AStar: the costs `1 + 3e`, the sums `g[current] + cost` and the priorities `g + heur` are exact reals. The source computes them in float64, so two nearly equal costs or priorities can compare the other way there and give a different `came_from` and path. The proved properties are those of the exact computation.
- `Roads.PopMin` removes some least entry. Equal entries are identical tuples, so which copy is removed cannot be observed.
- `Roads.BuildRoads` requires `3 * sea_level > -1`, so that every land cost `1 + 3e` is positive. It does not model sea levels at or below -1/3.
- Python set iteration order (`for v in neighbors[u]`, `for j in neigh`) is an arbitrary choice in `Borders.Visit` and `Borders.BordersOf`. The proved results do not depend on it.
- `Generator.Farthest` and `Cities.Greedy` compare squared integer distances, not `np.hypot` values. The two agree on the order of integer distances as long as the floats are exact.
- `Generator.Spread` gives every candidate the key 0 while no city is placed. The source uses 1e9. Either way all keys tie and the first candidate wins.
- `Rivers.RiverWidth` computes floor(log2 f) exactly. The source takes the float `np.log2` and truncates it.
- `Rivers.Flux` sums exactly in `real`. The source sums floats; the values are whole numbers far below 2^53.
- `Generator.TraceRivers` takes `min_flux` as a parameter. The source's default of 20.0 is only used by `generate_world`, which is not modelled.
- Generator.AssignProvinces, Generator.LloydRelaxation: both require at least one seed. With no seeds, `np.argmin` of an empty array raises ValueError (generator.py:19, 36); the model does not represent that error.
- `Rivers.ComputeWaterFlux` omits the `sea_level` argument of rivers.py's `compute_water_flux`, which is never read.
- `Generator.LloydRelaxation` omits `province_map` (generator.py:14, 20), which is written and never read.
- `Generator.PlaceCities` takes `n_cities` and `min_dist` and, like the source, never reads them.
- Integers are unbounded. Grid sizes and squared distances stay far from numpy's 64-bit limits.
