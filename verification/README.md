# Verified models of ta-engine algorithms

A Dafny 4.11 project that models the algorithmic core of ta-engine, a re-implementation of a
1997 real-time strategy game, and proves what that core is relied on for: the skirmish AI's
planning and wave logic, the resumable A* pathfinder, the footprint clearance cache and the two grid
searches built on it, the map editor's stamp brush, the raster routines of the art pipeline, the latency relay used
for network testing, and the briefing screen's word wrap.

Code that changes things step by step is modelled by methods over arrays, fields and loops, each
proved against a specification function or predicate; the properties are lemmas about that
specification, for all inputs, all reachable states or whole runs. `dafny verify dfyconfig.toml`
checks everything.

| file | what it models |
|---|---|
| `Wants.dfy` | the ladder of needs, what may be built, and what the profile says of a unit, read off the stats |
| `Planner.dfy` | unit categories, category desire, profile resolution and the usability test of menu entries |
| `Reservoir.dfy` | the weighted reservoir draw and the generator behind it |
| `Waves.dfy` | when the AI sends its fighters out |
| `Controller.dfy` | the AI controller: pick, retry, produce, rotation, walk home, one think, the log of a run of thinks |
| `ControllerLaws.dfy` | what a think sends, read off the units it sees |
| `Decimals.dfy`, `Profile.dfy`, `ProfileLaws.dfy` | the AI build profile format; what single lines of a file come to |
| `NavGrid.dfy` | walkability with its saturating clearance cache and footprint query |
| `Basics.dfy`, `Arithmetic.dfy`, `GridIndex.dfy`, `Paths.dfy` | shared definitions; division facts; row-major cell numbers; reachability and counting |
| `Routes.dfy`, `FreeGround.dfy` | legal routes on an 8-neighbour grid and their cost; what they cost on open ground and on two by two cells |
| `FloodFill.dfy` | components of legal footprint placements |
| `ShortestPath.dfy` | the benchmark's exact 8-neighbour route length |
| `OpenList.dfy`, `AStar.dfy`, `Corners.dfy`, `PathSearch.dfy` | the resumable A*: its heap, its rounds, the route it hands out, and the search object |
| `Corridors.dfy` | two families of maps on which what it hands out is not the whole route |
| `TileMap.dfy`, `StampView.dfy`, `NewMap.dfy` | maps, sections and the stamp brush; what a reader sees after a stamp; new maps, resizing |
| `StampPlanes.dfy` | stamps, tilings and resized maps read off the planes, number by number |
| `LineRaster.dfy` | the all-octant line |
| `Upscale.dfy`, `Resample.dfy` | the edge-directed 2x scaler; the area-average resampler |
| `UpscaleLaws.dfy`, `ResampleLaws.dfy` | what the scaler does to corners, lines and faint pixels; the resampler on two pixels |
| `Relay.dfy` | the delay relay as a state machine |
| `WordWrap.dfy` | greedy word wrap |

## Findings

Where the code does less than its comments or tests promise, the code is modelled as it is and the
exact condition is proved.

* src/ai/ai.cpp:26-29 — a weight of ten million or more is not read as written: the parser stops
  counting whole digits at seven. Exactly below ten million the whole part is the written one
  (`Decimals.WholeExact`); 10000000 is read as 1000000 (`Decimals.TenMillionMisread`).
* src/ai/ai.cpp:128-137 — limits "take the tightest match" exactly when no matching limit is negative
  or the last match happens to be the tightest: a negative one is forgotten by the next match
  (`Planner.LimitIsTightest`, `Planner.NegativeLimitForgotten`).
* src/ai/ai.h:180-183 — the reservoir draw is exactly weight-proportional over ideal draws, but the
  generator yields only 16 bits: an entry with predecessors replaces them in every generator state
  exactly when its weight is 65536 hundredths or more (`Reservoir.HeavyAlwaysReplaces`).
* src/cartographer/sections.cpp:93-131 — every block under a stamp shows the section's art exactly when
  the contents that cannot be found in the library beforehand are none, or fit into it below 65536
  tiles (`StampView.CoveredBlocksShow`); every cell shows the section's feature exactly when the known
  names lie below the marker range and the new ones fit below it (`StampView.CoveredCellsShow`). A map
  with 65536 tiles and 65530 names shows neither (`StampView.FullMapExists`). A block or cell outside
  the stamp keeps its meaning exactly when its index was in use before, is past all that is added, or,
  for a cell, is one of the marker values (`StampView.UncoveredBlockKeeps`, `StampView.UncoveredCellKeeps`).
* src/client/artscale.h:97-102 — the 2x scaler commutes with turning an image upside down, but not with
  mirroring it left to right; at every output pixel the exact condition is given, and an image on which
  it fails (`Upscale.MirrorExactly`, `Upscale.MirrorCounterexample`).
* src/client/artscale.h:48-57 — what the scaled image shows is independent of the colour under
  transparent pixels provided no alpha lies in 8..24; for every such alpha there are two images that
  look the same and are scaled differently (`Upscale.ScaleIgnoresHidden`, `Upscale.BlindExactly`,
  `Upscale.HiddenLeaks`).
* src/client/artscale.h:59-70 — a blend is never darker than its visible inputs, but it can be brighter,
  because the average of the alphas is cut to a whole number before the colours are divided by it.
  For given alphas it stays between its visible inputs, whatever their colours, exactly when 254 times
  the remainder is less than four times the average (`UpscaleLaws.BlendBetweenExactly`). An image whose
  visible pixels all have grey 200 gets a pixel of grey 225 (`UpscaleLaws.FaintEdgeBrightens`).
* tools/footprobe.cpp:63-86 — the map probe's figure around one unit can grow with the footprint,
  because a wider body may be measured in another room, which cannot happen when it fits where the
  narrower one is measured; the largest component cannot grow
  (`FloodFill.ReachCanGrow`, `FloodFill.SameSeed`, `FloodFill.ReachShrinks`, `FloodFill.LargestShrinks`).
* src/sim/sim.cpp:1022-1029 — the footprint query agrees with looking at every cell exactly for
  footprints up to 15 cells, or where there is no room anyway, because the cache saturates there; it
  refuses a body of 16 cells on a free square of 16 x 16 (`NavGrid.QueryExact`,
  `NavGrid.WideBodyRefused`).
* src/sim/pathsearch.cpp:223-258 — the A* does find a cheapest legal route, as its comment says, and
  never needs its visit limit. What it hands out are the first 256 corners, in travel order, of the
  last 8192 moves of that route (`PathSearch.PathSearch.WalkBack`, `Corners.HandedOutLeadsAlong`). That
  is the whole route exactly when there are at most 256 corners and either at most 8192 moves or no
  turn in the moves skipped or right after them (`Corners.HandedOutIsRoute`). Up any staircase of more
  than 128 steps there are too many corners, and along a hall of more than 8192 cells with a corner at
  its door that corner is skipped; on both maps the search arrives and what is handed out does not lead
  to the goal
  (`Corridors.ManyCornersAreCut`, `Corridors.FarCornerIsSkipped`).
* src/sim/pathsearch.h:246-248, src/sim/sim.cpp:5023-5025 — a route is taken to be partial when its
  last cell is not the goal. On maps of at most 8193 cells that is exactly right, since a cheapest route
  has fewer moves than the map has cells (`PathSearch.EndTellsWhole`, `Routes.CheapestIsShort`). In the
  hall the cell handed out is the goal, and the route is partial (`Corridors.FarCornerIsSkipped`).

## Model

| member | source | states |
|---|---|---|
| ShortestPath.RouteLength | tools/crowdbench.cpp:195-234 | The benchmark's route length is 1.6 world units per cost point of the cheapest legal route between the two cells; it is 0 when an end is off the grid or no route below the infinity bound exists; on open ground it is 22.4 for every diagonal move there is room for and 16 for every straight one that remains. Coordinates are converted rounding towards zero |
| ShortestPath.Search | tools/crowdbench.cpp:203-233 | The scanning Dijkstra terminates; the cost at which the goal is popped is the minimum over every legal sequence of moves, and it runs dry only if every legal route costs at least 2^29 |
| ShortestPath.Nearest | tools/crowdbench.cpp:213-216 | The scan returns an unfinished cell of least distance below infinity, or reports that there is none |
| ShortestPath.RelaxAll | tools/crowdbench.cpp:218-231 | Relaxing the eight neighbours of a freshly finished cell re-establishes the search state |
| ShortestPath.Neighbour | tools/crowdbench.cpp:223-228 | The guards admit a move exactly when the entered cell is on the grid and fits, and on a diagonal both corner cells fit |
| ShortestPath.Frontier | tools/crowdbench.cpp:213-231 | Any route ends in a finished cell that is no farther than the route is long, or some unfinished cell is at most that far |
| ShortestPath.FinishCell | tools/crowdbench.cpp:213-219 | The unfinished cell of least distance already has its exact least cost |
| ShortestPath.NothingLeft | tools/crowdbench.cpp:216 | When only unreached cells are left, no route cheaper than infinity leads to the goal |
| ShortestPath.RelaxKeeps | tools/crowdbench.cpp:229-230 | Lowering a distance through a finished cell never touches a finished cell and keeps every distance the cost of a real route |
| Routes.ReachableInFewMoves | tools/crowdbench.cpp:203-205 | A reachable cell is reachable in fewer moves than the grid has cells: loops can be cut out of a route |
| ShortestPath.NoRouteIffAllDear | tools/crowdbench.cpp:204-233 | If 14 times the number of cells does not exceed the infinity bound, the search fails exactly when there is no legal route at all |
| ShortestPath.ZeroMeans | tools/crowdbench.cpp:195-234 | On such grids a length of 0 between two cells means that they are the same cell or that no legal route joins them |
| ShortestPath.CellCoordIs | tools/crowdbench.cpp:200-201 | A cell is 16 units wide, and cell 0 reaches from -16 to 16, both excluded |
| ShortestPath.SmallAnswer | tools/crowdbench.cpp:219-230 | Between opposite corners of two by two cells the search answers 14 when both cells beside fit, 20 when one does, and nothing when neither or the goal does not |
| FreeGround.FreeCost | tools/crowdbench.cpp:222-229 | On open ground the least cost is 14 for every diagonal move there is room for and 10 for every straight one that remains, between any two cells |
| FreeGround.CornerToCorner | tools/crowdbench.cpp:223-229 | Between opposite corners of two by two cells: diagonally at 14 when both cells beside fit, round by the one that fits at 20, not at all otherwise, and the tolls of the cells entered on top |
| OpenList.Push | src/sim/pathsearch.cpp:186-199 | Putting an entry into the heap keeps it a heap and adds exactly that entry |
| OpenList.Pop | src/sim/pathsearch.cpp:201-221 | Taking from the heap yields the entry that comes first by estimate and cell number, removes exactly it, and leaves a heap |
| OpenList.FirstUnique | src/sim/pathsearch.cpp:180-184 | The first entry depends on the contents only, not on how they were put in: all peers expand cells in the same order |
| OpenList.FirstIs | src/sim/pathsearch.cpp:180-184 | The first entry has the least estimate, and of several such the least cell number |
| AStar.Consistent | src/sim/pathsearch.cpp:225-232 | The octile estimate never drops by more than a move costs, with or without the toll for occupied cells |
| AStar.Admissible | src/sim/pathsearch.cpp:225-226 | The estimate never exceeds the cost of any legal route |
| AStar.Frontier | src/sim/pathsearch.cpp:276-319 | Any route ends in a closed cell reached no more dearly, or some waiting cell promises no more than the route |
| AStar.FirstIsFinal | src/sim/pathsearch.cpp:279-288 | The first entry of the open list is stale or names a cell whose cost is final |
| AStar.ImproveKeeps | src/sim/pathsearch.cpp:296-318 | Looking at one neighbour keeps costs real, closed cells final, waiting cells listed and breadcrumbs true |
| AStar.RoundKeeps | src/sim/pathsearch.cpp:276-320 | Every round keeps all that, costs the same work and leaves less to do |
| AStar.OverDecides | src/sim/pathsearch.cpp:278-293 | A search that is over has arrived exactly when a legal route exists, and has failed exactly when none does |
| AStar.SearchDecides | src/sim/pathsearch.cpp:343-348 | With work for nine rounds a cell and two more, it is over |
| FreeGround.GradedCorners | src/sim/pathsearch.cpp:302-309 | On two by two graded cells: grades below 4 are refused, a cell of grade 4 costs 40 more, and no diagonal move passes a refused cell |
| FreeGround.GradedArrival | src/sim/pathsearch.cpp:302-309 | A search on such a map that is over has arrived exactly when that allows it, with that cost |
| FreeGround.FreeArrival | src/sim/pathsearch.cpp:225-226 | A search that has arrived on open ground has found the diagonal-first cost |
| AStar.ArrivedTrail | src/sim/pathsearch.cpp:311-316 | On arrival the breadcrumbs lead back along a legal route of least cost |
| AStar.OneWayBack | src/sim/pathsearch.cpp:240-253 | The breadcrumbs mark only one route to a cell |
| AStar.TrailHasNoCycle | src/sim/pathsearch.cpp:245-246 | No cell comes twice on the way back: the guard against a cycle never stops the walk |
| Routes.CheapestIsShort | src/sim/pathsearch.cpp:241 | A cheapest legal route has fewer moves than the grid has cells |
| Corners.CornersLoseNothing | src/sim/pathsearch.cpp:234-259 | Running straight from corner to corner is the route again |
| Corners.HandedOutIsRoute | src/sim/pathsearch.cpp:241-258 | Running straight through what is handed out is the whole route if and only if the route has at most 256 corners and either at most 8192 moves, or what is skipped and the move after it are one straight run |
| Corners.HandedOutLeadsAlong | src/sim/pathsearch.cpp:241-258 | In any case it leads along the last 8192 moves from where they begin, to their end exactly when these have at most 256 corners |
| PathSearch.EndsAtGoal | src/sim/sim.cpp:5023-5025 | For a route of any length, the last cell handed out is the goal exactly when the part walked back has at most 256 corners |
| PathSearch.EndTellsWhole | src/sim/sim.cpp:5023-5025 | On maps of at most 8193 cells the last cell handed out is the goal exactly when running straight through the cells leads there legally, and then it is a cheapest legal route |
| PathSearch.OneAnswer | src/sim/pathsearch.cpp:234-259 | The state of a search determines what it hands out |
| Corridors.ManyCornersAreCut | src/sim/pathsearch.cpp:258 | On every staircase map of more than 128 steps a legal route exists and what is handed out on arrival does not lead to the goal |
| Corridors.FarCornerIsSkipped | src/sim/pathsearch.cpp:241 | On every hall map of more than 8192 cells in a row a legal route exists, the goal alone is handed out on arrival, and running straight to it is not legal |
| PathSearch.Scratch.Restart | src/sim/pathsearch.h:157-172 | A new generation makes every entry of the scratch read as empty without clearing it |
| PathSearch.PathSearch.Reset | src/sim/pathsearch.cpp:35-65 | A reset empties the scratch and the search for a map of any size |
| PathSearch.PathSearch.OneRound | src/sim/pathsearch.cpp:276-320 | The method on stamped arrays and heap carries out exactly one round on the state they stand for |
| PathSearch.PathSearch.NextRound | src/sim/pathsearch.cpp:333-348 | A further round adds its work, goes on towards the same final state, and leaves the visits within the limit of one expansion a cell |
| PathSearch.PathSearch.WalkBack | src/sim/pathsearch.cpp:237-253 | Walking the breadcrumbs back collects the corners of exactly the last 8192 moves of the route, or of all if there are fewer |
| PathSearch.PathSearch.Step | src/sim/pathsearch.cpp:261-358 | One call comes to the state that the rounds up to its quantum lead to, whatever was done in earlier calls; it reports arrival only with what is handed out of the cheapest legal route that its breadcrumbs mark: the first 256 corners of its last 8192 moves; and failure only when there is no legal route |
| PathSearch.PathSearch.StepByStep | src/sim/pathsearch.cpp:654-658 | Any number of calls with growing quanta, as long as the search is suspended, leaves it in the state of one call with the last quantum, with that call's answer and route |
| PathSearch.PathSearch.ReadyAfterReset | src/sim/pathsearch.cpp:321-358 | A search that has been reset and given two ends on the map may be stepped |
| FloodFill.LargestComponent | tools/footprobe.cpp:103-126 | The scan returns the size of the largest 4-connected component of fitting cells, and its counts add up to the number of fitting cells, each counted once |
| FloodFill.Fill | tools/footprobe.cpp:112-124 | A fill from an unseen cell counts and marks exactly that cell's whole component, which was untouched before |
| FloodFill.Neighbour | tools/footprobe.cpp:117-121 | Each direction leads to at most one fitting cell, and to it whenever there is one |
| FloodFill.StepIs | tools/footprobe.cpp:116-121 | Two fitting cells are joined exactly when they are one column or one row apart, and not both |
| FloodFill.NeighboursTogether | tools/footprobe.cpp:116-121 | Fitting cells that touch along an edge are in one component |
| FloodFill.AloneStaysAlone | tools/footprobe.cpp:116-121 | A cell that touches no fitting cell along an edge is a component of its own, whatever touches its corners |
| FloodFill.OpenFloorIsLargest | tools/footprobe.cpp:103-126 | On a map where everything fits the largest component has all cells |
| FloodFill.FillIsComponent | tools/footprobe.cpp:112-124 | A queue closed under steps and disjoint from the closed set seen before is the seed's component |
| FloodFill.SameComponent | tools/footprobe.cpp:93-95 | Components are equivalence classes: every member has the same component |
| FloodFill.LargestShrinks | tools/footprobe.cpp:105-127 | If every placement of a larger body is one of a smaller body, its largest component is not larger |
| FloodFill.LocalRuleShrinks | tools/footprobe.cpp:57-62 | Under the tool's own window rule the largest component never grows with the footprint |
| FloodFill.NavRuleShrinks | src/sim/sim.cpp:1022-1029 | The same under the navigation grid's centred footprint rule |
| FloodFill.FindSeed | tools/footprobe.cpp:64-71 | The ring search finds the first fitting place in its order within 60 rings of the unit, or reports that nothing there fits |
| FloodFill.Reach | tools/footprobe.cpp:63-86 | The probe returns the size of the component of that place, 0 when there is none |
| FloodFill.SeedUnique | tools/footprobe.cpp:67-71 | There is only one such place, so the figure is determined |
| FloodFill.SeedIsNearest | tools/footprobe.cpp:67-71 | It is the fitting place with the least longer distance along the axes, below 60; of several the one in the least row, and there in the least column |
| FloodFill.ReachShrinks | tools/footprobe.cpp:57-86 | The figure the probe returns for a wider body, 0 included, is no larger while both are measured in the same room |
| FloodFill.SameSeed | tools/footprobe.cpp:57-71 | It is the same room whenever the wider body fits where the narrower one is measured |
| FloodFill.ReachCanGrow | tools/footprobe.cpp:57-86 | Two figures of one map, the wider body's the larger |
| NavGrid.ClearanceStep | src/sim/sim.cpp:980-992 | The recurrence with its clamp at 15 computes the side of the largest free square from each corner |
| NavGrid.ClearanceAnswers | src/sim/sim.h:946-950 | A footprint of at most 15 cells fits at a corner exactly when the cached value is at least its side |
| NavGrid.EditIsLocal | src/sim/sim.cpp:958-975 | An edit cannot change the clearance of a cell whose 15 x 15 block it does not touch |
| NavGrid.NarrowerFits | src/sim/sim.cpp:1022-1029 | A wider body never fits where a narrower one does not |
| NavGrid.UnderTheBody | src/sim/sim.cpp:1022-1029 | The cells under a body are those less than half its width from the centre, and for even widths the row and column just before |
| NavGrid.QueryExact | src/sim/sim.cpp:1022-1029 | The query agrees with looking at every cell under the footprint exactly up to 15 cells, or where there is no room anyway |
| NavGrid.WideBodyRefused | src/sim/sim.cpp:970-973 | A free square of 16 x 16 cells that is refused to a body of 16 |
| NavGrid.NavGrid.RebuildClearance | src/sim/sim.cpp:978-993 | The dynamic program leaves the exact clearance in every cell |
| NavGrid.NavGrid.UpdateClearanceRect | src/sim/sim.cpp:1006-1020 | Refreshing the band around an edited rectangle gives the same cache as a full rebuild |
| NavGrid.NavGrid.Block | src/sim/sim.cpp:950-968 | Blocking or clearing a rectangle changes exactly its cells on the grid and keeps the cache exact |
| NavGrid.NavGrid.Fits | src/sim/sim.cpp:1022-1029 | The constant-time footprint query answers from the exact clearance, rebuilding it when needed |
| TileMap.Map.StampSection | src/cartographer/sections.cpp:69-150 | A stamp reports false and changes nothing when the section is fully off the map; otherwise it has exactly the effect `Stamped`, for any offset and any hash function |
| TileMap.Map.InternTile | src/cartographer/sections.cpp:93-107 | With a colliding hash and any bucket order, a tile is appended exactly when no addressable tile has its content, and the index returned names that content exactly when it is addressable |
| TileMap.Map.InternFeature | src/cartographer/sections.cpp:123-131 | Markers pass, unknown values become empty, a known name is looked up or appended |
| TileMap.Map.BuildIndex | src/cartographer/sections.cpp:89-91 | The content index lists every addressable tile under its hash |
| TileMap.Map.StampTiles | src/cartographer/sections.cpp:110-120 | The clipped block loop gives every covered block an index for its section content and leaves the others alone |
| TileMap.Map.StampCells | src/cartographer/sections.cpp:135-148 | The clipped cell loop gives every covered cell the section's height and translated feature and leaves the others alone |
| StampView.CoveredBlocksShow | src/cartographer/sections.cpp:74-107 | Every covered block shows its section art exactly when, before the stamp, the library has room for all contents that cannot be found in it |
| StampView.CoveredBlockShows | src/cartographer/sections.cpp:74-107 | With that room, or when its content could be found before, a covered block shows its section art |
| StampView.SmallSectionHasRoom | src/cartographer/sections.cpp:93-107 | Library and section together within 65536 tiles leave room at every offset |
| StampView.LibraryAfter | src/cartographer/sections.cpp:93-107 | The library grows by exactly the contents that could not be found, or outgrows its index |
| StampView.UncoveredBlockKeeps | src/cartographer/sections.cpp:102-106 | An uncovered block keeps its art exactly when its index named a tile before or names none after all new contents |
| StampView.CoveredCellsShow | src/cartographer/sections.cpp:122-147 | Every covered cell shows its section feature exactly when, before the stamp, known names lie below the marker range and the new ones fit below it |
| StampView.CoveredCellShows | src/cartographer/sections.cpp:122-147 | A covered cell takes the section height, and with that room its feature; without a feature in the section it keeps its own |
| StampView.SmallSectionHasNameRoom | src/cartographer/sections.cpp:123-131 | Names of map and section together below the marker range leave room at every offset |
| StampView.NamesAppended | src/cartographer/sections.cpp:123-131 | The name table grows by exactly the names it did not hold |
| StampView.FullMapExists | src/cartographer/sections.cpp:93-131 | A map with full tables and a section on which a stamp shows neither art nor feature |
| StampView.UncoveredCellKeeps | src/cartographer/sections.cpp:127-130 | An uncovered cell keeps its height, and its feature exactly when its value was a marker or in use before, or is past all new names |
| StampPlanes.BlockAfterStamp | src/cartographer/sections.cpp:93-120 | With room in the library a block under the stamp names a tile with the 1024 bytes at 1024 times the section's index there, and index 0 where there are none; a block beside the stamp keeps its index |
| StampPlanes.CellAfterStamp | src/cartographer/sections.cpp:122-148 | With room in the name table a cell under the stamp takes the section's height, and its feature value v becomes: v itself from 0xFFFA on, a value that names the section's name number v where there is one, 0xFFFF otherwise; a cell beside the stamp keeps both |
| TileMap.RestampGrowsNothing | src/cartographer/sections.cpp:84-131 | A second stamp of the same section, at any offset where its visible part was visible before, adds no name, and adds no tile exactly when all it shows is addressable, as it is while the library stays within 16 bits |
| TileMap.LibraryGrows | src/cartographer/sections.cpp:93-107 | A stamp leaves the library alone exactly when every tile it shows can be found there |
| TileMap.MeaningOfFirst | src/cartographer/sections.cpp:124-130 | The 16-bit value stored for a name means that name exactly when its position is below the marker range |
| TileMap.PassOne | src/cartographer/sections.cpp:110-118 | Each unclipped step of the double loop writes one plane cell, the one under the section cell it reads, never twice |
| NewMap.NewBlankMap | src/cartographer/newmap.cpp:152-172 | A new map is periodic: every block shows the section block, or has index 0 where that names no tile, and every cell has the height and shows the feature of the section cell, at its position modulo the section size, whole and clipped stamps alike; the library and the name table hold exactly what the map shows, each once |
| NewMap.TiledStep | src/cartographer/newmap.cpp:170-172 | One more stamp extends the tiled part and keeps the library exact |
| NewMap.LibraryStaysSmall | src/cartographer/newmap.cpp:170-172 | Tiling with one section never outgrows the 16-bit index, whatever the map size |
| NewMap.StampAtHome | src/cartographer/newmap.cpp:170-172 | A stamp at a multiple of the section size lays each section block at its position modulo that size |
| NewMap.GroundedStep | src/cartographer/newmap.cpp:170-172 | One more stamp extends the part of the ground that repeats the section and keeps the name table exact |
| NewMap.CellAtHome | src/cartographer/sections.cpp:133-147 | A stamp at a multiple of the section size lays each section cell at its position modulo that size |
| NewMap.OneSectionNames | src/cartographer/sections.cpp:122-131 | The names of one section, each once, stay below the marker range |
| StampPlanes.BlockOfTiling | src/cartographer/newmap.cpp:170-172 | Every block of a tiled map names the bytes of the section's block at its position modulo the section size |
| StampPlanes.CellOfTiling | src/cartographer/newmap.cpp:170-172 | Every cell has the height of the section's cell at its position modulo the section size, and a value with the same name, the same marker, or none |
| StampPlanes.NewGround | src/cartographer/newmap.cpp:107-127 | New ground lies 22 above the sea, modulo 256, without a feature, and with the first block's index |
| NewMap.ResizeMap | src/cartographer/newmap.cpp:100-131 | A resize rebuilds the three planes and leaves the tables alone; the map becomes `ResizedMap` of what it was |
| NewMap.ResizeKeeps | src/cartographer/newmap.cpp:107-127 | For maps of any size, odd ones included, the common top-left part of a resized map reads as before: same art, heights and features |
| NewMap.ResizeBack | src/cartographer/newmap.cpp:100-131 | Growing a map and shrinking it back restores all of it |
| NewMap.GrowShrink | src/cartographer/newmap.cpp:112-131 | The same for one plane |
| LineRaster.DrawLine | tools/modeltool.cpp:60-73 | For all end points in every octant the loop terminates and paints exactly the points of the closed form |
| LineRaster.EndsAtTarget | tools/modeltool.cpp:60-73 | The line reaches its target after exactly max(dx, dy) steps and not before |
| LineRaster.HalfPixel | tools/modeltool.cpp:61-71 | Every point is within half a pixel of the ideal line |
| LineRaster.StaysInBox | tools/modeltool.cpp:69-71 | Neither axis overshoots, and each step goes to one of the eight neighbours |
| LineRaster.RoundedIff | tools/modeltool.cpp:61-71 | The rounded rise is the only integer within half a unit of the ideal one, ties going up |
| LineRaster.OffsetStep | tools/modeltool.cpp:69-71 | The two tests on the error term advance each axis exactly as the rounded line does |
| LineRaster.PaintedByte | tools/modeltool.cpp:64-67 | A byte of the image carries ink exactly when a point falls on its pixel; all others keep their value |
| LineRaster.PixelInked | tools/modeltool.cpp:64-67 | The four bytes of a pixel on the image are 120, 220, 160, 255 exactly when it is one of the points |
| Upscale.Upscale2x | src/client/artscale.h:73-111 | Every output pixel is the corner rule applied to the clamped neighbourhood of its source pixel |
| Upscale.ScaleUpside | src/client/artscale.h:93-102 | Scaling commutes with turning the image upside down |
| Upscale.MirrorExactly | src/client/artscale.h:73-102 | At every output pixel, scaling commutes with left-right mirroring exactly when no corner is found there, the centre looks alike from both neighbours, or the blend changes nothing |
| Upscale.MirrorCounterexample | src/client/artscale.h:97-102 | An image whose mirror image is scaled differently |
| Upscale.ScaleIgnoresHidden | src/client/artscale.h:27-29 | Without alphas in 8..24, what is shown does not depend on the colour under transparent pixels |
| Upscale.HiddenLeaks | src/client/artscale.h:48-57 | For every alpha in 8..24, two images that look the same, with that one alpha in the range, and are scaled differently |
| Upscale.BlindExactly | src/client/artscale.h:48-57 | The comparison with a pixel is blind to the colour of transparent ones exactly when its alpha is outside 8..24 |
| Upscale.BlendIgnoresHidden | src/client/artscale.h:59-70 | The premultiplied blend takes no colour from transparent inputs |
| UpscaleLaws.OneChannelApart | src/client/artscale.h:46-57 | Two colours that differ in one channel alone count as the same up to 59 steps of red, 39 of green, 119 of blue, or 24 of alpha; two nearly transparent ones always do |
| UpscaleLaws.EdgesRepeat | src/client/artscale.h:77-81 | A sample beside the image is that of the nearest edge |
| UpscaleLaws.LinesStay | src/client/artscale.h:93-98 | Between two neighbours of one colour, above and below or left and right, a pixel is copied |
| UpscaleLaws.CornerRounded | src/client/artscale.h:98-103 | A solid corner of another colour turns exactly the quarter in it into the mean of both colours |
| UpscaleLaws.BlendBetweenExactly | src/client/artscale.h:59-70 | Inputs of given alphas blend to something between the visible ones, whatever their colours, exactly when the remainder of the alphas is small enough |
| UpscaleLaws.NeverDarker | src/client/artscale.h:59-70 | A blend is never darker than its visible inputs |
| UpscaleLaws.FaintEdgeBrightens | src/client/artscale.h:59-70 | An image of one grey whose scaled image has a brighter pixel |
| Resample.ResampleImage | src/client/artscale.h:120-158 | The output is, pixel by pixel, the settled total of the window; an image without pixels gives a transparent one |
| Resample.WindowTotal | src/client/artscale.h:124-142 | The weights of every window add up to the ratio of the sizes |
| Resample.SourceTotal | src/client/artscale.h:124-142 | The weights of every source pixel over all windows add up to one |
| Resample.CoverIsWindow | src/client/artscale.h:124-147 | Every output pixel averages over the same area, the product of the two ratios |
| Resample.MassConserved | src/client/artscale.h:144-147 | For every plane, the mass received by all output pixels is the mass of the source |
| Resample.ConstantImage | src/client/artscale.h:150-155 | A constant visible image resamples to itself at every pair of sizes; a fully transparent one to transparent black |
| Resample.OutputBetween | src/client/artscale.h:134-155 | Every alpha of an output pixel, and every colour of a visible one, lies between the least and the greatest under its window |
| Resample.RangeSuffices | src/client/artscale.h:132-143 | Source pixels outside the visited range have no weight |
| Resample.RatioIsQuotient | src/client/artscale.h:130 | The ratio whose windows span the source is the quotient of the sizes |
| ResampleLaws.RoundIs | src/client/artscale.h:151-155 | Values are rounded to the nearest byte, ties going up |
| ResampleLaws.MeanOfTwo | src/client/artscale.h:130-155 | Two pixels resampled into one: the alphas are averaged, the colours in proportion to the alphas, each rounded to the nearest |
| ResampleLaws.MeanOfSolid | src/client/artscale.h:130-155 | Two opaque pixels give the plain mean, half a step going up |
| Relay.BytesPreserved | tools/netdelay.py:33-81 | In every state of every interleaving the bytes written are a prefix of the bytes read, and once the writer has finished they are all of them |
| Relay.DeliveredInOrder | tools/netdelay.py:71-81 | Deliveries are the first chunks that arrived, unchanged, in order and never before their due time |
| Relay.DueUnaffectedByWriter | tools/netdelay.py:36-46 | A chunk's due time depends only on what had arrived by then, not on the writer's progress |
| Relay.NoLostWakeup | tools/netdelay.py:68-75 | After the end of the stream an idle writer always has something to fetch |
| Relay.DueOrdered | tools/netdelay.py:64-67 | Due times never decrease, and a chunk is never due before it has been held long enough |
| Relay.NoJitterNoQueueing | tools/netdelay.py:59-66 | Without jitter a chunk is due exactly the delay after it arrived, and never before the clock starts |
| Relay.HoldBounded | tools/netdelay.py:59-66 | For any delay and jitter a chunk is due between the least and the greatest hold after it arrived, whatever happened to earlier ones |
| Relay.DueAttained | tools/netdelay.py:64-66 | Each due time is the arrival plus hold of some chunk: a running maximum |
| Relay.DueMovesWithDraw | tools/netdelay.py:59-66 | A chunk that overtakes nothing is due its delay after it arrived, moved by exactly the jitter drawn, and never before it arrived; otherwise it is due with the one before |
| Relay.ReadSide | tools/netdelay.py:52-69 | The reader's loop stamps each chunk with that running maximum |
| WordWrap.Wrap | src/client/briefingscreen.cpp:25-40 | The character loop yields the greedy layout of the text's words, or one empty line |
| WordWrap.GreedyOptimal | src/client/briefingscreen.cpp:24-33 | Every line fits unless it is one oversized word, and no order-preserving division of the words into such lines has fewer lines |
| WordWrap.GreedyStaysAhead | src/client/briefingscreen.cpp:28-34 | Among layouts with as many lines, the greedy one has the fewest words on its last line |
| WordWrap.GreedyKeepsWords | src/client/briefingscreen.cpp:28-34 | The lines hold exactly the words, in order |
| WordWrap.WrapRoundTrip | src/client/briefingscreen.cpp:25-40 | Tokenising the produced lines gives back exactly the words of the text |
| WordWrap.LettersKept | src/client/briefingscreen.cpp:35-36 | The words hold all characters of the text but blanks, in order |
| Decimals.ReadComplete | src/ai/ai.cpp:15-42 | Every decimal with an optional sign and point is read back as itself |
| Decimals.ReadSound | src/ai/ai.cpp:37 | Nothing else is accepted: what is read spells the token |
| Decimals.ParseHundredths | src/ai/ai.cpp:20-42 | The parser's loops return a value exactly for the tokens that spell a decimal; below ten million it is what the digits denote, in hundredths rounded towards zero, with the sign written |
| Decimals.ValueMeans | src/ai/ai.cpp:34-41 | That value, in terms of the digits as base-ten numbers and powers of ten |
| Decimals.HundredthsMean | src/ai/ai.cpp:31-38 | The hundredths of a fraction are what its decimals denote, rounded down |
| Decimals.WholeExact | src/ai/ai.cpp:26-29 | The kept whole part is the written one exactly when that is below ten million |
| Decimals.TenMillionMisread | src/ai/ai.cpp:26-29 | The least number that is not read as written |
| Decimals.ValueFits | src/ai/ai.cpp:39-40 | No decimal overflows the source's 32-bit arithmetic |
| Profile.ParseProfile | src/ai/ai.cpp:70-109 | For any text, every entry of every plan is the one set by the last line that speaks for that plan, and there are no others |
| Profile.MeaningUnique | src/ai/ai.cpp:74-78 | That meaning determines the profile |
| Profile.NextSpeaks | src/ai/ai.cpp:88-95 | A recognised plan line hands over to that plan alone; every other line, unknown plan names included, leaves the scope as it was |
| Profile.LineRead | src/ai/ai.cpp:96-106 | Carrying out one line for exactly the current targets keeps the profile in agreement with the file |
| ProfileLaws.OneWeight | src/ai/ai.cpp:80-106 | A file of one weight line sets that weight, in hundredths, for every difficulty, and nothing else |
| ProfileLaws.OneLimit | src/ai/ai.cpp:80-106 | A file of one limit line sets that limit, the whole number written, for every difficulty, and nothing else |
| ProfileLaws.WeightInPlan | src/ai/ai.cpp:44-56 | After a plan line only the difficulties of that plan get a weight: Passive and Easy, Normal, or Hard and Absurd |
| ProfileLaws.CommentCut | src/ai/ai.cpp:83 | Whatever follows two slashes does not matter |
| ProfileLaws.WordEnds | src/ai/ai.cpp:84-97 | Words end at blanks, and at the control characters from tab to carriage return |
| ProfileLaws.LineEnds | src/ai/ai.cpp:80 | Lines end at line breaks |
| ProfileLaws.LowerCase | src/ai/ai.cpp:87-98 | Capitals count as the small letters at the same place of the alphabet |
| Planner.SilenceMeansDefault | src/ai/ai.h:26-32 | A unit the profile does not mention has weight one and no limit |
| Planner.LimitIsTightest | src/ai/ai.cpp:128-137 | The result is the tightest matching limit, or unlimited when none matches, exactly when no match is negative or the last match is the tightest |
| Planner.NegativeLimitForgotten | src/ai/ai.cpp:134 | A negative limit that is replaced by the next match, so that the result is not the tightest |
| Planner.Desire | src/ai/ai.cpp:329-369 | Desires lie between 0 and 96, and defence is never desired |
| Planner.DesiresDiffer | src/ai/ai.cpp:329-369 | Two categories that are equally and positively desired are the same |
| Planner.Ladder | src/ai/ai.cpp:326-369 | An energy stall comes before everything, income before the first factory, the first factory before the rest, and the army takes what nothing else wants |
| Wants.KindIs | src/ai/ai.cpp:191-232 | A unit's category is its kind: metal plants, energy plants, factories and mobile builders that offer more fighters than buildings, other builders, fighters |
| Wants.UsableIs | src/ai/ai.cpp:388-433 | A menu entry is usable exactly when the profile gives it weight, one more stays within the scaled limit, savings and income pay for it in time, it is no store for a resource below four fifths of its cap, and no metal maker without the energy to run it; its draw weight is the profile's |
| Wants.OneTag | src/ai/ai.cpp:121-125 | One category tag that the profile weighs gives its weight, whatever other tags the unit has |
| Wants.TwoTags | src/ai/ai.cpp:121-125 | Two of them give the product, rounded down to hundredths |
| Wants.OwnEntryWins | src/ai/ai.cpp:114-129 | An entry under the unit's own id decides alone, for weight and limit; a compound weight lies between 0 and a million hundredths |
| Wants.DifficultiesDiffer | src/ai/ai.cpp:139-157 | Passive is Easy without attacks and Absurd plans like Hard; from Easy to Hard a player thinks more often, builds more at a time and musters more |
| Reservoir.WeightProportional | src/ai/ai.cpp:469-480 | Out of all ideal draws, the share that choose an entry is its weight over the final total |
| Reservoir.DrawsCounted | src/ai/ai.cpp:477-478 | The number of ideal draws is the product of the running totals |
| Reservoir.AlwaysChosen | src/ai/ai.cpp:477-480 | Some entry is always chosen when there is one |
| Reservoir.ChosenIs | src/ai/ai.cpp:477-480 | The chosen entry is the last whose draw falls below its own weight |
| Reservoir.FirstNumbers | src/ai/ai.h:180-183 | From seed 1 the generator yields 16838 and then 38526, before the bound is taken |
| Reservoir.StatesStayApart | src/ai/ai.h:180-183 | No two states of the generator lead to the same one |
| Reservoir.DrawsAreAll | src/ai/ai.cpp:477-478 | The counted draws are exactly the sequences with one number below each running total |
| Reservoir.DrawnBelow | src/ai/ai.h:180-183 | The generator yields numbers below the bound, and never above 16 bits |
| Reservoir.HeavyAlwaysReplaces | src/ai/ai.h:180-183 | An entry is chosen over its predecessors in every generator state exactly when it has none or its weight is at least 65536 |
| Controllers.Controller.WeightedPick | src/ai/ai.cpp:375-481 | The pick stands on the highest rung of the ladder of needs among the entries that may be built, in terms of unit stats and the figures of the economy: energy plants in an energy stall, metal plants below one factory's draw, the first factory, more factories, builders, more metal, more energy, fighters; nothing is picked exactly when no such entry stands on any rung, whatever the generator's state |
| Controllers.PickIsMostUrgent | src/ai/ai.cpp:435-476 | The scores of the planner follow that ladder |
| Controllers.Controller.Draw | src/ai/ai.cpp:469-480 | The second pass is the reservoir draw over the usable entries of greatest desire, with the draws the generator makes for their running totals |
| Controllers.FindBest | src/ai/ai.cpp:435-442 | The first pass finds the greatest desire among the entries that may be picked |
| Controllers.RivalsShareCategory | src/ai/ai.cpp:371-374 | The draw never mixes categories, although the code compares desires only |
| Controllers.Controller.Act | src/ai/ai.cpp:808-827 | A producer's turn sends it one command, for a usable, wanted menu entry such that everything wanted more lies in a category that had a pick refused; or it sends nothing, and then every category with a usable, wanted entry had a pick refused |
| ControllerLaws.OrderFollowsLadder | src/ai/ai.cpp:808-827 | An order is for an entry on offer; any entry on offer that is more urgent is of a kind of which some entry on offer cannot be ordered |
| ControllerLaws.OrderIs | src/ai/ai.cpp:486-527 | A building trains mobile types at no place; a mobile builder builds, buildings on the site found and mobile types on the spot found; nothing else is ordered |
| Controllers.BestOfTheRest | src/ai/ai.cpp:813-822 | A pick that can be carried out is the best outside the struck-out categories |
| Controllers.NothingLeftToTry | src/ai/ai.cpp:809-826 | Five refusals, or no pick, leave no wanted category untried: five attempts are enough |
| Controllers.Tried | src/ai/ai.cpp:809-825 | A refused pick strikes out a category not struck out before, and never defence |
| Controllers.Controller.Tick | src/ai/ai.cpp:758-844 | Off its cadence or defeated, a think does nothing; otherwise it sends exactly the orders of the producers served in turn, the walk home and the wave decided, at most producersPerThink + 1 + 256 commands, with the controller's own plan and parameters, and, with unique ids and commanders that build, never commands a unit twice; the run so far stays on record |
| Controllers.NobodyCommandedTwice | src/ai/ai.cpp:802-843 | Producers' orders, the walk home and the wave address different units |
| Controllers.Controller.DriveProducers | src/ai/ai.cpp:802-827 | The queue is served from the front until it ends or the slots are used up: each producer served got a sensible order or is stuck, and nobody else got one |
| Controllers.Controller.Produces | src/ai/ai.cpp:767-827 | The idle producers are served in rotated order; while money is short and something is being built nobody acts |
| ControllerLaws.NothingStarted | src/ai/ai.cpp:793-801 | With less than 50 metal and something of one's own under construction, a think starts nothing |
| ControllerLaws.ProducersAre | src/ai/ai.cpp:767-783 | The idle producers are the player's living, finished buildings with a menu and an empty queue, and mobile builders without orders or a site |
| Controllers.Controller.ViewIs | src/ai/ai.cpp:44-56 | A think plans with the plan of the profile that its difficulty stands for |
| ControllerLaws.WalksHome | src/ai/ai.cpp:828-842 | A single commander walks home exactly when it is idle and finished, got no order, and is more than 520 away |
| Controllers.EveryProducerGetsATurn | src/ai/ai.cpp:784-792 | Over as many consecutive thinks as there are producers, each comes first once |
| Controllers.TurnOrder | src/ai/ai.cpp:788-792 | At think number t the turns go round from producer t on |
| Controllers.Controller.SendWaves | src/ai/ai.cpp:648-756 | The wave logic marches exactly the fighters that the decision of this think names, at most 256, and records it |
| Waves.RaidsAreSpaced | src/ai/ai.cpp:743-755 | Over any run of thinks, each raid comes at least 750 ticks after every earlier raid, probe or commit |
| Waves.ProbeOnlyFirst | src/ai/ai.cpp:745-753 | The lone probe is sent at most once, and only as the first march of all |
| Waves.StateRemembers | src/ai/ai.cpp:734-754 | The two fields know whether there was a march, and the tick of the last one |
| Waves.CommitIff | src/ai/ai.cpp:718-735 | The fighters commit, up to 256, exactly when there are enough for the big push or the economy is tapped out, given a target and a player that attacks |
| Waves.RaidIff | src/ai/ai.cpp:740-755 | A raid goes out in full strength exactly when, short of the big push, it leaves the wave size and a third of the big push at home, 750 ticks after the last march |
| Waves.ProbeIff | src/ai/ai.cpp:743-750 | The probe goes out exactly when a scouting player has not marched before and does nothing else |
| Controllers.RaidsInLog | src/ai/ai.cpp:740-755 | In the log of any run of thinks, a raid sends exactly the first raiders among the idle fighters, leaves the base wave size and a third of the big push behind, and no unit was sent out within 750 ticks before |
| Controllers.PassiveNeverAttacks | src/ai/ai.cpp:650 | The log of a passive controller never sends a unit out to attack |
| Controllers.AttacksSent | src/ai/ai.cpp:720-755 | A think sends out exactly the fighters its wave decision names: builders' orders and the walk home never attack |
| ControllerLaws.FightersAre | src/ai/ai.cpp:654-657 | The fighters of a wave are the player's living mobile units that do not build and are idle or on a plain move |
| ControllerLaws.BigPushIs | src/ai/ai.cpp:700-702 | The big push is the wave size and one more for every four of base income, up to 60 |
| ControllerLaws.GreatArmyMarches | src/ai/ai.cpp:718-735 | In any recorded run of a player that attacks, sixty idle fighters with an objective march, all or the first 256; so does any number when the economy is tapped out |
| ControllerLaws.OneObjective | src/ai/ai.cpp:718-752 | All that a think sends out goes to the one objective |
| ControllerLaws.NoAimlessMarch | src/ai/ai.cpp:675-686 | Nobody is sent out without an objective |

## Left out

- The bodies of `assessNeeds`, `homeOf`, `placeSite`, `nearestVisibleEnemy`, `nearestEnemyStart`, `factoryAppetite` and the ring probing in `produce`: they reach the controller as parts of the world snapshot (needs, home, site, spot, objective).
- Controllers.Controller.Tick: the environment-variable logging is not modelled, and the command's fixed-size type field is a string.
- Controllers.Controller.Draw: the running total is unbounded; a profile whose unit weights add up to 2^31 or more would overflow the source's `int`.
- Controllers.Controller.Act: the exclusion bit mask is a set of categories.
- Controllers.RaidsInLog: ticks are assumed not to decrease over a run and do not wrap.
- Planner.UnitType: registry keys are taken as already lower-case, and the 64-bit product of category weights is unbounded.
- Profile.ParseProfile: `getline`, stream extraction, comment stripping and `tolower` are functions on strings; only ASCII letters are lowered.
- Floating point: AI economics, the resampler, and the relay's clock use reals; IEEE rounding is not modelled.
- Integer width in the line loop, the grid searches and the map dimensions is unbounded, except for the 16-bit plane entries and tick arithmetic.
- PathSearch.PathSearch.Step: the grading of cells is the same in all calls of one search, although the world may change between ticks; the boundary tracer, the request queue and its budget, the stamps of the walk's cycle guard (it never fires: `AStar.TrailHasNoCycle`), 32-bit overflow of costs and the wrap of the generation counter are not modelled.
- ShortestPath.RouteLength: the footprint query is a parameter, and the unused vector named `heap` is not modelled.
- NavGrid.NavGrid.Fits: the obstacle overlay shared between grids and the version counter are not modelled; the grid is a two-dimensional array rather than a flat one.
- FloodFill.LargestComponent: the map loading and the printed percentages are not modelled.
- TileMap.Map.StampSection: a map stamped onto itself is not modelled; the section is a separate value whose planes have the sizes the loader gives them, and both tile tables hold whole tiles.
- NewMap.NewBlankMap: choosing the fill section, world levels, palettes and minimaps are not modelled; heights and features repeat for sections as the section loader makes them, with two cells to a block and full planes.
- Upscale.Upscale2x: the four bytes of a pixel are one record; texture upload and the repeated-pass factor are not modelled.
- Relay.BytesPreserved: an error is a task that takes no further step; sockets, argument parsing and statistics are not modelled.
- SDL drawing, campaign, archive and model file formats, networking, accounts and the rest of the simulation are outside this project.
