# pepse world generator — a Dafny model

This project models the core of the pepse side-scroller's world generation and player logic:

- **Grid** (`grid.dfy`): the 30-pixel block grid. It covers Java's truncating `/`, the way a `[minX, maxX)` request is aligned to the grid, and the columns the `for (x = startX; x < endX; x += Block.SIZE)` loop visits.
- **Terrain** (`terrain.dfy`): `Terrain.createInRange`. Each visited column gets 20 ground blocks stacked downward from the surface, snapped to the grid. The nested column and depth loops are modelled as methods, proved equal to a specification function.
- **Tree** (`tree.dfy`): `Tree.plantTree`. It builds a 4..7-block trunk, then decides each cell of a 3 x 3 leaf grid on its own draw from the tree's random stream.
- **Flora** (`flora.dfy`): `Flora.createInRange`, the vegetation planner. For each column, a salt-0 draw decides whether a tree stands there. A tree column queries the ground height and plants a tree from its salt-1 stream. Every part is returned with its layer.
- **Fruits** (`fruit.dfy`): `Fruit` as a two-state object (available and depleted), with pickup, scheduled respawn and palette colour.
- **Avatars** (`avatar.dfy`): `Avatar.update` (the energy budget, walking and jumping) and `Avatar.onCollisionEnter`.
- **Streaming** (`streaming.dfy`): `InfiniteWorldManager.update`. The generated strip `[minGeneratedX, maxGeneratedX)` grows by 600-pixel chunks as the camera approaches either edge. Each growth is announced through the `onRangeNeeded` callback.
- **Rand** (`random.dfy`): the seeded `java.util.Random` streams, modelled as an abstract oracle. Draw `i` of the stream seeded with `Objects.hash(x, salt, worldSeed)` is `oracle(StreamKey(x, salt, worldSeed), i)`. Each `nextDouble`/`nextInt` call consumes one draw. `nextDouble` is the raw draw modulo 2^53 scaled into [0, 1), and `nextInt(n)` is the raw draw modulo `n`.
- **Layers** (`layers.dfy`): the two danogl layers used, BACKGROUND and STATIC_OBJECTS.

Modelling choices:

- **Ground height.** It is a parameter `height: int -> int` giving the integer part of `groundHeightAt(x)`. The noise generator is not part of this model. Terrain computes `(int)(rawHeight / 30) * 30` on a float. This equals `JavaDiv((int) rawHeight, 30) * 30` for both signs, so it is modelled with `Grid.JavaDiv`.
- **Probabilities.** They are exact rationals:
  - TREE_PROBABILITY is the double nearest to 0.10.
  - PROB = 0.15f is the float value, widened to double where it is compared with `nextDouble()`.
- **Camera edges.** They are reals, inputs of each frame. Whether a callback call throws is also an input of each frame: a throw ends `update` before the bound is assigned.
- **Alignment.** Terrain and Flora keep the as-written truncating alignment. The corrected floor/ceiling alignment sits beside it in `Grid` with its own proved properties (see "## Findings").

Where the source and its documentation differ, the model follows the source:

- `Flora` calls `Tree.createTree`, which does not exist in `Tree.java`. Flora is modelled over the parts `Tree.plantTree` places. Trunk blocks are not LayerProviders.
- `Tree.plantTree` builds every leaf cell as a plain `Block`, which is not a LayerProvider, so the layer rule of `Flora.createInRange` applied literally to what plantTree builds would put leaves on STATIC_OBJECTS. The model assumes the missing `createTree` builds leaf cells as `Leaf` objects, whose default layer is BACKGROUND. That is the layer `plantTree` adds them to.
- The Flora documentation speaks of fruit. No source file plants a fruit, so Flora produces none. `Fruit.defaultLayer()` is the constant `Fruits.DEFAULT_LAYER`, STATIC_OBJECTS.

## Model

| member | source | states |
|---|---|---|
| Grid.JavaDiv | pepse/world/Terrain.java:99-100 | Java's int division: the remainder has the sign of the dividend and is smaller than the divisor |
| Grid.ColumnsAt | pepse/world/Terrain.java:102 | column i of the loop is `startX + i*30` and lies in [startX, endX) |
| Grid.ColumnsLength | pepse/world/Terrain.java:102 | the loop runs ceil((endX - startX)/30) times, and not at all when startX >= endX |
| Grid.ColumnsMembership | pepse/world/Terrain.java:102 | x is visited iff startX <= x < endX and x is on the grid that starts at startX |
| Grid.ColumnsSplit | pepse/world/Terrain.java:102 | splitting the loop at a grid point visits the same columns in the same order |
| Grid.AlignBoundsNonNegative | pepse/world/Terrain.java:99-100 | for 0 <= minX <= maxX, startX <= minX < startX + 30 and maxX <= endX < maxX + 30, both multiples of 30 |
| Grid.AlignStartOnGrid | pepse/world/Terrain.java:99 | a multiple of 30, of either sign, is its own start column |
| Grid.AlignEndOnGrid | pepse/world/Terrain.java:100 | a non-negative multiple of 30 is its own end bound |
| Grid.AlignEndNegativeOvershoot | pepse/world/Terrain.java:100 | for maxX a negative multiple of 30, endX = maxX + 30, so column maxX is visited as well |
| Grid.AlignStartNegativeUndershoot | pepse/world/Terrain.java:99 | for a negative off-grid minX, startX is one column past the column holding minX, which no request starting at minX visits, whatever its maxX |
| Grid.NegativeSeamShared | pepse/world/Terrain.java:99-100 | two aligned requests meeting at a negative grid point both visit that column |
| Grid.EightHundredPixelsIsTwentySevenColumns | pepse/PepseGameManager.java:34 | the start-up request over an 800-pixel window visits 27 columns, ending at 810 |
| Grid.RangeColumnsSplit | pepse/world/Terrain.java:99-102 | for non-negative aligned a <= b <= c, the columns of [a,c) are those of [a,b) then those of [b,c) |
| Grid.FloorToGrid | pepse/world/Terrain.java:99 | corrected start: the grid point at or below x, less than one block below |
| Grid.CeilToGrid | pepse/world/Terrain.java:100 | corrected end: the grid point at or above x, less than one block above |
| Grid.CorrectedColumnsCover | pepse/world/Terrain.java:99-102 | corrected alignment: a column is visited iff it is on the grid and its block overlaps [minX, maxX), for every sign |
| Grid.CorrectedRangeSplit | pepse/world/Terrain.java:99-102 | corrected alignment: adjacent aligned requests compose for every sign |
| Terrain.TopBlockY | pepse/world/Terrain.java:105 | the snapped surface is a multiple of 30 lying between the raw height and zero, less than one block from the raw height |
| Terrain.StackColumn | pepse/world/Terrain.java:107-113 | the depth loop yields the 20 blocks of the column, top first |
| Terrain.CreateInRange | pepse/world/Terrain.java:93-117 | the nested loops return exactly the blocks of every visited column, column after column |
| Terrain.ColumnPrefixMembership | pepse/world/Terrain.java:107-111 | a block is in a column iff it has the column's x, is tagged "ground" and is one of the grid cells from the surface downward |
| Terrain.BlockCountOver | pepse/world/Terrain.java:26 | every column contributes exactly 20 blocks; the total is 20 times the number of columns |
| Terrain.BlockAtOver | pepse/world/Terrain.java:102-113 | output block k is block k % 20 of column k / 20, at (x, topBlockY + (k % 20)*30) |
| Terrain.BlockLayout | pepse/world/Terrain.java:102-113 | for a whole request: 20 blocks per visited column, block i of a column at (x, topBlockY + i*30) |
| Terrain.BlocksMembership | pepse/world/Terrain.java:102-113 | a block is produced iff its x is a visited column, it is tagged "ground" and it is one of the 20 cells below that column's surface |
| Terrain.OverlapAgrees | pepse/world/Terrain.java:102-113 | two requests that visit the same column produce the same blocks for it |
| Terrain.AllGround | pepse/world/Terrain.java:111 | every produced block is tagged "ground" |
| Terrain.BlocksSplit | pepse/world/Terrain.java:99-114 | for non-negative aligned a <= b <= c, the blocks of [a,c) are those of [a,b) followed by those of [b,c) |
| Rand.DoubleAt | pepse/world/pepse.world.trees/Flora.java:70 | a nextDouble draw lies in [0, 1) |
| Rand.IntAt | pepse/world/pepse.world.trees/Tree.java:31 | a nextInt(bound) draw lies in [0, bound) |
| Rand.Random.constructor | pepse/world/pepse.world.trees/Flora.java:50-52 | a fresh stream for its key, with no draws consumed |
| Rand.Random.NextDouble | pepse/world/pepse.world.trees/Tree.java:44 | returns the stream's next draw as a value in [0, 1) and consumes exactly one draw |
| Rand.Random.NextInt | pepse/world/pepse.world.trees/Tree.java:31 | returns the stream's next draw below the bound and consumes exactly one draw |
| Tree.TrunkHeight | pepse/world/pepse.world.trees/Tree.java:31 | the trunk height is 4 + nextInt(4), hence in 4..7 |
| Tree.PlantTree | pepse/world/pepse.world.trees/Tree.java:26-50 | the trunk loop and the leaf loops place exactly the parts of the specification tree, and consume 1 + 9 draws |
| Tree.PlantLeaves | pepse/world/pepse.world.trees/Tree.java:41-49 | the nested leaf loops consume one draw per cell, dx outer and dy inner, and keep the cells whose draw is not below PROB |
| Tree.TreeTrunk | pepse/world/pepse.world.trees/Tree.java:31-41 | the tree starts with h trunk blocks (4 <= h <= 7), block i at (x, groundY - 30*(i+1)) on STATIC_OBJECTS, followed by at most 9 parts; the bottom leaf row starts at the top trunk block's y |
| Tree.LeafGrid | pepse/world/pepse.world.trees/Tree.java:42-47 | cell (dx, dy) at (x + 30*dx, leafStartY - 30*dy) holds a leaf iff its draw (dx+1)*3 + dy is not below PROB |
| Tree.LeafPresentIff | pepse/world/pepse.world.trees/Tree.java:42-45 | cell c is among the first n cells' leaves iff c < n and draw c is not below PROB |
| Tree.LeafCellInjective | pepse/world/pepse.world.trees/Tree.java:45 | distinct cells of the 3 x 3 grid are at distinct positions |
| Tree.LeavesShape | pepse/world/pepse.world.trees/Tree.java:42-47 | at most n leaves from n cells, each a leaf on BACKGROUND at one of those cells |
| Tree.LeavesLocal | pepse/world/pepse.world.trees/Tree.java:42-44 | the leaves of n cells depend only on the n draws those cells consume |
| Tree.TreePartsLocal | pepse/world/pepse.world.trees/Tree.java:31-47 | a tree depends only on the ten draws plantTree consumes from its stream |
| Tree.TrunkKinds | pepse/world/pepse.world.trees/Tree.java:34-38 | every trunk block is a trunk on STATIC_OBJECTS |
| Tree.TreeLeaves | pepse/world/pepse.world.trees/Tree.java:34-47 | a part of a tree is a trunk iff it is in the trunk, and a leaf iff it is in the leaf grid; trunks on STATIC_OBJECTS, leaves on BACKGROUND |
| Flora.ColumnLocal | pepse/world/pepse.world.trees/Flora.java:50-77 | coordinate determinism: a column's tree test and objects depend only on the first salt-0 draw and the ten salt-1 draws keyed by (x, salt, worldSeed) and on the ground height at x, so worlds agreeing on those give the column the same objects regardless of call order |
| Flora.Layered | pepse/world/pepse.world.trees/Flora.java:77-81 | one layered object per part |
| Flora.LayerParts | pepse/world/pepse.world.trees/Flora.java:77-82 | the inner loop pairs each part with its layer, in order |
| Flora.PlantColumn | pepse/world/pepse.world.trees/Flora.java:70-82 | one column: the tree test is the salt-0 draw, and the column's objects are the tree from the salt-1 stream, or nothing |
| Flora.CreateInRange | pepse/world/pepse.world.trees/Flora.java:62-85 | the column loop returns every visited column's objects in increasing x, and queries the ground height at exactly the tree columns, in order |
| Flora.ColumnYieldsIff | pepse/world/pepse.world.trees/Flora.java:70-72 | a column yields objects iff its salt-0 draw is below TREE_PROBABILITY |
| Flora.ColumnLayers | pepse/world/pepse.world.trees/Flora.java:77-81 | a tree column's objects are its tree's parts in order, each on the layer of the LayerProvider rule with leaves taken to be Leaf objects: STATIC_OBJECTS for trunk blocks, BACKGROUND exactly for leaves |
| Flora.ObjectsOverMembership | pepse/world/pepse.world.trees/Flora.java:68-83 | an object is produced iff some visited column contributes it |
| Flora.ColumnStable | pepse/world/pepse.world.trees/Flora.java:17-21 | any two requests that visit a column both contain everything that column contributes |
| Flora.ObjectsSplit | pepse/world/pepse.world.trees/Flora.java:65-84 | for non-negative aligned a <= b <= c, the objects of [a,c) are those of [a,b) followed by those of [b,c) |
| Flora.TreeColumnsMembership | pepse/world/pepse.world.trees/Flora.java:70-74 | the ground height is queried at x iff x is visited and its salt-0 draw is below TREE_PROBABILITY |
| Fruits.ColorAt | pepse/world/pepse.world.trees/Fruit.java:97-104 | the colour of a draw is a palette entry |
| Fruits.RandomColor | pepse/world/pepse.world.trees/Fruit.java:97-104 | returns the palette entry at nextInt(3) and consumes exactly one draw |
| Fruits.Fruit.constructor | pepse/world/pepse.world.trees/Fruit.java:48-56 | a new fruit is available, DIAM x DIAM, with a palette colour drawn from its stream, tagged "fruit", nothing scheduled |
| Fruits.Fruit.OnCollisionEnter | pepse/world/pepse.world.trees/Fruit.java:60-77 | a collider not tagged "avatar" changes nothing; the avatar gets ENERGY_VALUE, the fruit is depleted and one RESPAWN_TIME respawn is scheduled |
| Fruits.Fruit.Deactivate | pepse/world/pepse.world.trees/Fruit.java:80-83 | no renderable, size zero |
| Fruits.Fruit.Reactivate | pepse/world/pepse.world.trees/Fruit.java:86-89 | DIAM x DIAM again, with a fresh colour from the fruit's own stream |
| Fruits.Fruit.RunScheduledRespawn | pepse/world/pepse.world.trees/Fruit.java:71-76 | the oldest scheduled task is removed and the fruit is reactivated |
| Fruits.PickupThenRespawn | pepse/world/pepse.world.trees/Fruit.java:60-89 | pickup then respawn gives ENERGY_VALUE and leaves the fruit available with the next colour of its stream, nothing pending |
| Avatars.Frame | pepse/world/Avatar.java:33-54 | update keeps energy in [1, 100]; it costs at most 12 and gains at most 1; a gain happens iff there is no walking and no jump below 100; without a jump it regenerates one unit below 100 even while walking; horizontal velocity rule; vertical velocity becomes -650 exactly on a jump |
| Avatars.Avatar.constructor | pepse/world/Avatar.java:21-31 | energy starts at DEF_ENERGY = 100 |
| Avatars.Avatar.Update | pepse/world/Avatar.java:33-54 | the guarded statements leave exactly the state of one specification frame and keep energy in range |
| Avatars.Avatar.GetEnergy | pepse/world/Avatar.java:55-58 | returns the energy, which lies in [1, 100] |
| Avatars.Avatar.OnCollisionEnter | pepse/world/Avatar.java:60-65 | only a collider tagged "block" zeroes the vertical velocity; nothing else changes |
| Avatars.RunKeepsEnergyInRange | pepse/world/Avatar.java:36-53 | over any sequence of frames energy stays in [1, 100] |
| Avatars.IdleRun | pepse/world/Avatar.java:49-53 | n idle frames from energy e give min(e + n, 100) |
| Avatars.TerrainNeverStopsFall | pepse/world/Avatar.java:62-64 | as written, landing on any terrain block leaves a non-zero vertical velocity, so no jump can follow |
| Avatars.LandingOnTerrainEnablesJump | pepse/world/Avatar.java:45-47 | with the corrected tag test, landing on terrain zeroes the vertical velocity, and space with more than 10 energy after walking then jumps |
| Streaming.Step | pepse/world/InfiniteWorldManager.java:61-79 | left test then right test. Each side grows by one chunk iff its test fires, requesting exactly the adjacent strip. At most two requests, left first. No test means no request and no change. A throwing callback leaves its bound unassigned. min <= max is preserved |
| Streaming.InfiniteWorldManager.constructor | pepse/world/InfiniteWorldManager.java:43-55 | the bounds are the initial ones |
| Streaming.InfiniteWorldManager.Update | pepse/world/InfiniteWorldManager.java:61-79 | the field updates and callback calls are those of one specification step |
| Streaming.RunMonotone | pepse/world/InfiniteWorldManager.java:67-78 | over any frames, throws included, minGeneratedX never increases and maxGeneratedX never decreases, each in whole chunks |
| Streaming.CatchUp | pepse/world/InfiniteWorldManager.java:67-78 | a view within one chunk of the window is covered after one frame |
| Streaming.SlowMoveStaysWithinChunk | pepse/world/InfiniteWorldManager.java:67-78 | a covered view that moves by at most a chunk stays within one chunk of the window |
| Streaming.RunCovers | pepse/world/InfiniteWorldManager.java:61-79 | with a slowly moving camera and no throws, after every frame the window covers the buffered camera view |
| Streaming.LeftHysteresis | pepse/world/InfiniteWorldManager.java:67-70 | after a left extension, minGeneratedX stays put over every later frame whose left edge is at most one chunk left of the last covered edge; the camera must travel more than 600 pixels left before the next left extension |
| Streaming.RightHysteresis | pepse/world/InfiniteWorldManager.java:74-77 | after a right extension, maxGeneratedX stays put over every later frame whose right edge is at most one chunk right of the last covered edge |
| Streaming.StepTiles | pepse/world/InfiniteWorldManager.java:67-78 | one frame's requests extend a tiling to the new window |
| Streaming.RunTiles | pepse/world/InfiniteWorldManager.java:61-79 | without throws, all requests of a run tile the way from the initial window to the final one |
| Streaming.TilingShape | pepse/world/InfiniteWorldManager.java:68-77 | the requested strips are 600 wide, inside the final window, outside the initial one and pairwise disjoint; the width grows by 600 per request |
| Streaming.TilingCovers | pepse/world/InfiniteWorldManager.java:68-77 | every x of the final window is in the initial window or in a requested strip |
| Streaming.TilingOnGrid | pepse/world/InfiniteWorldManager.java:53-54 | from on-grid initial bounds, the bounds and every strip stay multiples of 30 |
| Streaming.NegativeSeamOverlap | pepse/world/Terrain.java:99-113 | as written, two strips meeting at a negative grid point both generate the terrain of the seam column |
| Streaming.LeftStripsShareSeam | pepse/world/InfiniteWorldManager.java:67-70 | as written, two successive leftward strips below 600 both visit their seam column |
| Streaming.CorrectedStripsDisjoint | pepse/world/Terrain.java:99-100 | with the corrected alignment, non-overlapping on-grid strips visit disjoint columns |
| Streaming.CorrectedRunDisjoint | pepse/world/InfiniteWorldManager.java:61-79 | with the corrected alignment, the strips of a run without throws visit pairwise disjoint columns |

## Left out

- Floating point: heights, camera edges, velocities and sizes are integers or exact reals. Float rounding of `groundY - SIZE * (i + 1)` and the other float expressions is not modelled.
- Tree.TreeTrunk: the model uses the integer part of the ground height for both the trunk and the leaves. In the source the trunk positions keep the fraction of the float `groundY`, while `leafStartY` is cast to int. So "the bottom leaf row starts at the top trunk block's y" is exact in the model but holds only to within one pixel in the source.
- `groundHeightAt` and the noise generator: the ground height is an abstract integer function of x.
- `java.util.Random` and `Objects.hash`: the numeric values of draws are an abstract oracle. Only which draw each call consumes, and the thresholds it is compared with, are modelled.
- int32 overflow of the coordinates is not modelled. Integers are unbounded.
- The `System.out.println` in `Terrain.createInRange` (output only). The commented-out earlier `createInRange` (dead code).
- Renderables, colours of ground, trunk and leaf blocks, and `ColorSupplier`: rendering only.
- `Tree.plantTree`'s own `terrain.groundHeightAt(x)` query and its `gameObjects.addGameObject` calls. The model takes the ground height as an argument and returns the parts with their layers. This is what lets Flora use it in place of the missing `Tree.createTree`.
- Fruit planting: no source file places fruits, so there is no fruit-versus-leaf choice to model.
- `Avatar.addEnergy` does not exist in `Avatar.java`. Fruits.Fruit.OnCollisionEnter returns the energy it hands over instead of changing the avatar.
- `ScheduledTask` timing: a respawn is a queued delay that runs when its time has elapsed. The scheduler clock is not modelled.
- danogl physics: gravity (GRAVITY is set, not otherwise used), `super.update`, intersection prevention and collision resolution. `velocityY` is the vertical velocity the physics step leaves behind.
- The keys are inputs of each frame, in place of `inputListener`.
- The camera edge suppliers are inputs of each frame.
- A callback call that throws: the model records that it threw and that the bound stays unassigned. Whatever the callback inserted into the world before throwing is not modelled.
- The day/night cycle (Sun, SunHalo, Night, Cloud), Sky and EnergyIndicator are not modelled: float animation and rendering.
- `PepseGameManager` scene wiring is not modelled. Its start-up request over an 800-pixel window appears only as Grid.EightHundredPixelsIsTwentySevenColumns.

## Findings

| source | as written | input that shows it | evidently intended | confidence | as-written member | corrected member |
|---|---|---|---|---|---|---|
| pepse/world/Terrain.java:100 | `((maxX + 29) / 30) * 30` truncates toward zero, so for a negative multiple of 30 it rounds up past maxX | maxX = -600: endX = -570, so column -600 is visited by the request [-1200, -600) and again by [-600, 0); InfiniteWorldManager's successive left strips generate that column's terrain twice | endX is the smallest grid point at or above maxX, so adjacent strips share no column | not executed; high | Grid.AlignEndNegativeOvershoot, Streaming.LeftStripsShareSeam, Streaming.NegativeSeamOverlap | Grid.CeilToGrid, Grid.CorrectedColumnsCover, Streaming.CorrectedStripsDisjoint, Streaming.CorrectedRunDisjoint |
| pepse/world/Terrain.java:99 | `(minX / 30) * 30` truncates toward zero, so for a negative minX off the grid the start is the next column up | minX = -10: startX = 0, so the block [-30, 0) covering x = -10 is not generated | startX is the largest grid point at or below minX | not executed; high | Grid.AlignStartNegativeUndershoot | Grid.FloorToGrid, Grid.CorrectedColumnsCover |
| pepse/world/Avatar.java:62 | the fall is stopped only by a collider tagged "block" | any terrain block: Terrain.java:111 tags it "ground", so landing leaves velocityY non-zero and the jump test at Avatar.java:45 fails | landing on terrain zeroes the vertical velocity so that the avatar can jump again | not executed; medium, since danogl's collision resolution, which is not modelled, may zero the velocity on its own | Avatars.TerrainNeverStopsFall | Avatars.LandingOnTerrainEnablesJump |

Terrain and Flora keep the as-written alignment, since that is what the code does. The corrected definitions stand beside it and are used by the corrected lemmas.
