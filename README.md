# Gray–Scott reaction–diffusion on a tile grid

`main.py` simulates two chemicals, A and B, on a 160×160 grid of tiles that
wraps around at the edges. Each tile holds its current concentrations `A`, `B`
and staged values `Ap`, `Bp`. At start-up every tile gets a list of nine
neighbours: the 3×3 block around it, itself included, wrapping at the edges.
A centred 60×60 square is then seeded with `B = 1`. Each frame runs `updateTiles`:

- First, `increaseChem` runs on every tile in row-major order. It computes a
  3×3 Laplacian of A and of B with weights -1 (centre), 0.2 (edges) and
  0.05 (corners). It applies the Gray–Scott kinetics (dA = 1, dB = 0.5,
  feed = 0.0545, k = 0.062), multiplies the whole result by t = 1.5, and
  clamps it to [0,1] into `Ap`/`Bp`.
- Then `swap` copies `Ap`/`Bp` into `A`/`B`, also in row-major order.

The Dafny project models this in five modules:

- `Topology` holds grid positions, Python's negative subscript, and the
  neighbour list `getNeighbors` builds.
- `Grids` holds per-tile grids of values and the splices that describe a grid
  part-way through a row-by-row sweep.
- `Kernel` holds the constants, the Laplacian, the kinetics and the clamp, as
  pure functions of the current grid.
- `Staging` models one `updateTiles` as values. The staging pass and the commit
  pass are folds over a visit order. It proves that staging reads only
  pre-step values, so the visit order does not matter. It also proves that one
  update equals the clamped kinetics of the pre-step grid.
- `Simulation` holds the class `TileGrid`. Each tile attribute is a grid field
  (`a`, `b`, `ap`, `bp`, `neighbors`, plus the constant `col`/`row`). The
  methods update these fields with the same loops the script runs. Each method
  is proved against the `Staging` and `Kernel` functions.

## Model

| member | source | states |
|---|---|---|
| Topology.PyIndex | main.py:94-96 | a subscript from -n to n-1 selects the element at the index mod n, counting back from the end for a negative index |
| Topology.NeighborList | main.py:89-97 | a neighbour list has 9 entries, all inside the grid, and entry 4 is the tile itself |
| Topology.NeighborListWrap | main.py:94-96 | entry i is the tile at ((c + dx) mod W, (r + dy) mod H), with (dx, dy) running row-major over {-1,0,1}² |
| Topology.CornerWrap | main.py:94-96 | the top-left neighbour of (0,0) is (W-1,H-1), and the bottom-right neighbour of (W-1,H-1) is (0,0) |
| Topology.NeighborListSymmetric | main.py:93-97 | if q is entry i of p's list, then p is entry 8-i of q's list |
| Topology.OppositeOffsets | main.py:93-97 | entries i and 8-i of the list lie at opposite offsets |
| Topology.WrapBack | main.py:94-96 | a step of d in {-1,0,1} followed by a step of -d on the cycle returns to the start |
| Kernel.CoeffsAreStencil | main.py:131-148 | the weight vector is -1 at the centre, 0.2 at the four edge neighbours and 0.05 at the corners, in neighbour-list order |
| Kernel.Laplacian | main.py:148-152 | definition: the left-to-right accumulation of the nine products of neighbour value and weight; its properties are proved in LaplacianTerms, LaplacianUniform and LaplacianIsStencil |
| Kernel.LaplacianTerms | main.py:148-151 | the neighbour loop's sum is the nine weighted terms written out |
| Kernel.LaplacianUniform | main.py:131-152 | the weights sum to zero, so a uniform neighbourhood has Laplacian 0 |
| Kernel.StencilTerms | main.py:131-147 | definition: the nine terms of a reference torus stencil, built from the offsets and the documented weights; LaplacianIsStencil ties it to the neighbour-list Laplacian |
| Kernel.LaplacianIsStencil | main.py:135-152 | the Laplacian over a tile's neighbour list equals the torus stencil around the tile |
| Kernel.WeightedSumTerms | main.py:149-151 | proof helper: a weighted sum equals the plain sum of its products |
| Kernel.RawA | main.py:160-161 | definition: A plus its increment (diffusion, minus reaction, plus feed), all multiplied by t = 1.5; its values are fixed by RestingTile and CentreOfThreeByThree |
| Kernel.RawB | main.py:162-163 | definition: B plus its increment (diffusion, plus reaction, minus kill and feed), all multiplied by t = 1.5; its values are fixed by RestingTile and CentreOfThreeByThree |
| Kernel.Clamp | main.py:164-169 | the result is in [0,1]; it is 0 for inputs at or below 0, 1 for inputs at or above 1, and the input unchanged strictly between |
| Kernel.NextA | main.py:158-166 | a tile's next A is in [0,1] and depends only on the current A and B grids |
| Kernel.NextB | main.py:158-169 | a tile's next B is in [0,1] and depends only on the current A and B grids |
| Kernel.NextFieldACells | main.py:178 | proof helper: the next-A grid holds, at every tile, that tile's next A |
| Kernel.NextFieldBCells | main.py:178 | proof helper: the next-B grid holds, at every tile, that tile's next B |
| Kernel.NextFieldsInUnitRange | main.py:164-169 | every value of both next-step grids lies in [0,1] |
| Kernel.RestingTile | main.py:158-169 | a tile whose nine neighbour-list entries (itself included) are all at A = 1, B = 0, whatever the rest of the grid holds, has both Laplacians 0, raw A 1.5 and raw B 0, and so stays at A = 1, B = 0, the raw A being clamped to 1 |
| Kernel.CentreOfThreeByThree | main.py:158-169 | with the centre of a 3×3 grid at A = B = 0.5 and the rest at A = 1, B = 0, the centre's Laplacians are 0.5 and -0.5, its raw A is 1.353375 and its raw B 0.475125, so its next A is 1 (clamped) and its next B is 0.475125 |
| Staging.StageCell | main.py:158-169 | staging a tile writes that tile's next A and B into its Ap and Bp, and changes nothing else |
| Staging.StagingPass | main.py:178 | a staging pass over any order keeps the shape of the grid |
| Staging.StagingPassOverwrites | main.py:178 | in any visit order, staging leaves A and B alone and copies the pre-pass kinetics into Ap and Bp at exactly the visited tiles |
| Staging.StagingPassEffect | main.py:178 | per tile: a visited tile's Ap and Bp are the kinetics of the pre-pass grid, and an unvisited tile's are unchanged |
| Staging.StagingOrderIndependent | main.py:178 | two visit orders that cover the same tiles stage exactly the same values |
| Staging.StagingPassSnoc | main.py:81-84 | proof helper: staging one more tile after a pass equals the pass over the longer order |
| Staging.StagingPassAppend | main.py:81-84 | staging along o1 and then along o2 equals staging along o1 + o2 |
| Staging.SwapCell | main.py:174-176 | committing a tile copies its Ap and Bp into its A and B |
| Staging.SwapPass | main.py:179 | a commit pass over any order keeps the shape of the grid |
| Staging.SwapPassOverwrites | main.py:179 | the commit pass copies Ap and Bp into A and B at exactly the visited tiles and leaves Ap and Bp alone |
| Staging.SwapPassSnoc | main.py:81-84 | proof helper: committing one more tile after a pass equals the pass over the longer order |
| Staging.SwapPassAppend | main.py:81-84 | committing along o1 and then along o2 equals committing along o1 + o2 |
| Staging.OverwriteEffect | main.py:178-179 | a position takes the source grid's value exactly when the order visits it |
| Staging.OverwriteOrderIndependent | main.py:178-179 | an overwrite depends only on the set of visited positions, not on their order |
| Staging.OverwriteAll | main.py:178-179 | an order that visits every tile copies the whole source grid |
| Staging.RowMajor | main.py:81-84 | the visit order of `fn_for_tileGrid` stays inside the grid |
| Staging.RowMajorWithin | main.py:81-84 | proof helper: the first y rows of the walk lie inside any grid at least y rows tall |
| Staging.RowPrefixStep | main.py:83-84 | proof helper: visiting tile (x, y) extends the visited prefix of row y by exactly that tile |
| Staging.RowMajorCells | main.py:81-84 | the row-major walk visits a position if and only if it is in the grid |
| Staging.RowMajorCoversGrid | main.py:81-84 | the row-major walk reaches every tile |
| Staging.CommitAll | main.py:179 | a row-major commit pass copies all of Ap into A and all of Bp into B |
| Staging.UpdateTilesSpec | main.py:178-179 | the row-major staging pass followed by the row-major commit pass keeps the grid's shape; UpdateTilesSpecCells gives its content |
| Staging.UpdateTilesSpecCells | main.py:178-179 | after one update, A and Ap both equal the next-A grid of the pre-step state, and B and Bp both equal the next-B grid |
| Staging.UpdateTilesSpecInUnitRange | main.py:164-179 | after an update, every A and B lies in [0,1], whatever the values before |
| Staging.Evolve | main.py:188-190 | n successive updates keep the grid's shape; EvolveInUnitRange bounds the result and Run is proved equal to it |
| Staging.CentreOfThreeByThreeStep | main.py:178-179 | one whole update of the 3×3 scenario (centre at A = B = 0.5, the rest at A = 1, B = 0, nothing staged) leaves the centre at A = 1 and B = 0.475125 |
| Staging.EvolveInUnitRange | main.py:188-190 | after at least one frame, every A and B lies in [0,1] |
| Simulation.InSeed | main.py:106-108 | definition: the size×size square whose corner is at (W // 2 - size // 2, H // 2 - size // 2); Seed's contract and ScriptSeedSquare are stated with it |
| Simulation.ScriptSeedSquare | main.py:104-108 | for the script's 160×160 grid and size 60, a tile is seeded exactly when its column and its row both lie in 50..109 |
| Simulation.SeedSquareInGrid | main.py:106-108 | a square no larger than the grid, centred with floor division, lies inside the grid |
| Simulation.NeighborGridWrap | main.py:99 | in the resolved neighbour grid, every tile's list has 9 entries, and entry i of the tile at (x, y) is the tile at ((x + dx) mod W, (y + dy) mod H) |
| Simulation.TileGrid.constructor | main.py:72-78 | the grid is H rows of W tiles; the tile at [y][x] has column x, row y, A = 1, B = 0, Ap = Bp = 0 and no neighbour list (the initial values come from `Tile.__init__`) |
| Simulation.TileGrid.GetNeighbors | main.py:89-97 | one tile's neighbour list becomes NeighborList of its own column and row; nothing else changes |
| Simulation.TileGrid.LinkNeighbors | main.py:99 | after the sweep every tile's neighbour list is resolved, and the concentrations are unchanged |
| Simulation.TileGrid.Seed | main.py:104-108 | B becomes 1 exactly on the centred size×size square; every other B and every other attribute is unchanged |
| Simulation.TileGrid.Laplace | main.py:135-152 | the two accumulated sums are the Laplacians of the current A and B over the tile's neighbour list |
| Simulation.TileGrid.IncreaseChem | main.py:158-169 | the grid becomes StageCell of the old grid: only this tile's Ap and Bp change, to its next A and B |
| Simulation.TileGrid.Swap | main.py:174-176 | the grid becomes SwapCell of the old grid: only this tile's A and B change, to its Ap and Bp |
| Simulation.TileGrid.StageRow | main.py:83-84 | the grid becomes the staging pass of the old grid along row y |
| Simulation.TileGrid.StageAll | main.py:178 | the grid becomes the row-major staging pass of the old grid |
| Simulation.TileGrid.SwapRow | main.py:83-84 | the grid becomes the commit pass of the old grid along row y |
| Simulation.TileGrid.SwapAll | main.py:179 | the grid becomes the row-major commit pass of the old grid |
| Simulation.TileGrid.UpdateTiles | main.py:125-179 | A becomes the next-A grid and B the next-B grid of the pre-step A and B; the neighbour lists are untouched |
| Simulation.TileGrid.Run | main.py:182-190 | n frames give the n-fold update of the start state; after at least one frame every A and B lies in [0,1] |
| Simulation.Kinetics | main.py:160-169 | the script's step-by-step arithmetic gives the clamped raw kinetics, and both results lie in [0,1] |
| Simulation.Setup | main.py:99-108 | start-up gives a 160×160 grid with neighbours resolved, A = 1 everywhere, and B = 1 exactly on the centred 60×60 square (so B is 1 at (80,80) and 0 at (0,0)) |

## Left out

- Drawing, the display and input are not modelled: pygame, `Tile.draw`, `getColor` and its `remap`, the `rect` and `color` attributes, the pixel positions `x`, `y` and `RES`, `draw()`, `userInput()` and the frame clock. They only read A and B, or talk to the screen.
- The `random` and `math` imports are not modelled; nothing in the model uses them.
- The endless `while True` loop is modelled as `Run(n)` for any number of frames n.
- Floating point is modelled as exact reals, so rounding is not captured. The script's integer starts (`A = 1`, `B = 0`) and its integer clamp results are the same numbers as reals.
- Tile objects and the references in their neighbour lists are modelled as one grid per attribute, with neighbours given as positions. Tiles are never replaced after construction, so a position and a reference name the same tile; aliasing between distinct lists is not modelled.
- `fn_for_tileGrid` is generic over a callback and extra arguments. Three of its four uses are modelled: `LinkNeighbors`, `StageAll`/`StageRow` and `SwapAll`/`SwapRow`. The fourth use, drawing, is left out with the rest of the drawing.
- Simulation.TileGrid.Seed: requires the square to be no larger than the grid. For larger sizes the script raises IndexError, or, for an odd dimension, reaches back through a negative subscript; neither is modelled. The script only seeds 60 on 160.
- Simulation.TileGrid.Laplace: requires the neighbour lists to be resolved. On an unresolved `None` list the script fails with a TypeError, which is not modelled.
- Simulation.TileGrid.IncreaseChem: the script writes the intermediate values of `tile.Ap` and `tile.Bp` into the tile one step at a time. The model computes them in locals (`Kinetics`) and stores the final values once. Nothing observes the intermediate values.
- The comment above `Tile.__init__` says a tile has 8 neighbours. The list `getNeighbors` builds has 9 entries, the tile itself at index 4, and the model follows the code.
- The time scale `t` multiplies the whole new value (A plus its increment), not only the increment; the model keeps this as written.
