# Procedural 2D tile game: chunks, light cells and the greedy mesher

This project models the tile core of a Unity 2D procedural tile game. The
world is a grid of integer tile positions, split into fixed-size chunks. It
has six parts:

- **Coordinates.** `TileUtil` (`tile_util.dfy`) converts between flat
  row-major indices and 2D positions, and between world tiles, chunk
  positions and chunk-local tiles. It also holds the bounds checks and the
  neighbour offset tables.
- **Light cells.** `TileLights` (`tile_light.dfy`) packs one cell's light
  into a 16-bit word, `SSSS RRRR GGGG BBBB`: a sun channel and three torch
  colour channels. Getters and setters work through masks and shifts.
- **Tiles.** `Tiles` (`tile.dfy`) is the per-cell tile record.
  `UnityTypes` (`unity_types.dfy`) holds the engine's `byte` and `Color32`.
- **Chunks.** `TileChunks` (`tile_chunk.dfy`) keeps one chunk's tile and
  light arrays and a `dirty` flag. Every in-bounds write raises the flag;
  a rebuild clears it.
- **The chunk registry.** `TileManagers` (`tile_manager.dfy`) creates a
  chunk the first time a world tile in it is written. It routes world
  tiles to their chunk. Each frame it rebuilds at most
  `numUpdateChunkInFrame` dirty chunks, in enumeration order.
- **The greedy mesher.** `TileMeshes` (`tile_mesh.dfy`) scans a chunk of a
  world-sized tile array column by column. From every unvisited non-zero
  tile it grows the tallest run of that tile upwards. It then widens the
  run one whole matching column at a time. Each resulting rectangle becomes
  one quad: 4 vertices, 4 uvs, 4 colours, 6 indices and a 4-point collider
  path.
- **The light overlay.** `TileLightTextures` (`tile_light_texture.dfy`)
  colours one texture pixel per chunk tile. Each colour channel is the
  brighter of that channel's torch light and the sun.

## How the model is built

**Pure helpers.** `TileUtil` and the light getters are pure code, so they
are functions with lemmas. A C# `int` that goes into bit operations is a
`bv32`, and the `short` light word is a `bv16`. Coordinates and tile ids are
unbounded integers.

**Light cells.** `TileLight` is a C# struct, so each setter is a function
from the old cell value to the new one. The in-place part of a write is the
chunk's array-slot update in `TileChunk.SetSunLight`.

**Chunks, the registry and the overlay.**
- `TileChunk` and `TileLightTexture` are classes over arrays.
- `TileManager` is a class whose dictionary is a `map` plus `keys`. `keys`
  is the sequence the dictionary's enumeration follows, and a newly added
  chunk comes last in it.
- The world's tiles are stated through the ghost function
  `TileManager.WorldTile`. It gives the tile at a world position through
  the chunk that holds it, and the empty tile where no chunk exists yet.

**The mesher.** `TileMesh` is a class. Its five output buffers and the
`visited` set are `seq`/`set` fields that its methods clear and append to.
A ghost field `quads` records the rectangles emitted so far, and the
predicate `MeshOf` ties the buffers and `visited` to them. The source's
single method is split into methods that follow its nested loops:
- `MeshColumn`: the `y` loop;
- `AddQuad` and `GrowQuad`: one rectangle;
- `GrowHeight`: the height loop;
- `GrowWidth`, `ColumnFits` and `MarkColumn`: the width loop with its test
  pass and its marking pass;
- `EmitQuad`: the emit loops.

**How the files' revisions fit together.** The source files are from
different revisions, and each is modelled as written:
- `TileChunk` keeps chunk-local arrays, while `TileMesh` and
  `TileLightTexture` index world-sized arrays through `mapSize`.
- `TileChunk.SetTile` writes a field `type` that `Tile` does not declare.
  Here it writes `id`.
- `Tile.Empty` is not declared in `Tile.cs`. Here it is the all-zero
  (default) tile.

## Model

| member | source | states |
|---|---|---|
| TileUtil.To1DIndex | Assets/Scripts/Utils/TileUtil.cs:9-12 | no contract of its own; its meaning is stated by To2DIndexOfTo1DIndex, To1DIndexOfTo2DIndex, To1DIndexInjective and BoundaryCheckIndexOfTo1DIndex |
| TileUtil.WorldTileToTile | Assets/Scripts/Utils/TileUtil.cs:50-53 | no contract of its own; stated by WorldTileToTileInverse and WorldTileInOwnChunk |
| TileUtil.TileToWorldTile | Assets/Scripts/Utils/TileUtil.cs:55-58 | no contract of its own; stated by WorldTileToTileInverse |
| TileUtil.BoundaryCheck | Assets/Scripts/Utils/TileUtil.cs:60-63 | no contract of its own; stated by BoundaryCheckIndexOfTo1DIndex and WorldTileInOwnChunk |
| TileUtil.BoundaryCheckIndex | Assets/Scripts/Utils/TileUtil.cs:65-68 | no contract of its own; stated by BoundaryCheckIndexOfTo1DIndex |
| TileUtil.BoundaryCheckInChunk | Assets/Scripts/Utils/TileUtil.cs:70-73 | no contract of its own; stated by BoundaryCheckInChunkRange and WorldTileToChunkUnique |
| TileUtil.Up | Assets/Scripts/Utils/TileUtil.cs:95 | a constant; Direction4 states that it and the other three are the four unit offsets |
| TileUtil.Down | Assets/Scripts/Utils/TileUtil.cs:96 | a constant; stated by Direction4 |
| TileUtil.Left | Assets/Scripts/Utils/TileUtil.cs:97 | a constant; stated by Direction4 |
| TileUtil.Right | Assets/Scripts/Utils/TileUtil.cs:98 | a constant; stated by Direction4 |
| TileUtil.To2DIndex | Assets/Scripts/Utils/TileUtil.cs:14-21 | for a non-negative index and positive width the result has 0 <= x < width, y >= 0, and flattens back to the index |
| TileUtil.ChunkToWorld | Assets/Scripts/Utils/TileUtil.cs:23-30 | a chunk's world position is the world tile of its local tile (0, 0) |
| TileUtil.WorldTileToChunk | Assets/Scripts/Utils/TileUtil.cs:32-39 | the chunk c of world tile w satisfies c*size <= w < c*size + size in each component |
| TileUtil.FloorDiv | Assets/Scripts/Utils/TileUtil.cs:36-37 | the floor of a / b for b > 0: q*b <= a < q*b + b |
| TileUtil.Direction4 | Assets/Scripts/Utils/TileUtil.cs:75-81 | four distinct offsets, each a unit step, and every unit step is among them |
| TileUtil.Direction8 | Assets/Scripts/Utils/TileUtil.cs:83-93 | eight distinct non-zero offsets with components in {-1, 0, 1}, and every such offset is among them |
| TileUtil.To2DIndexOfTo1DIndex | Assets/Scripts/Utils/TileUtil.cs:9-21 | an in-bounds position flattens to a non-negative index that converts back to the same position |
| TileUtil.To1DIndexOfTo2DIndex | Assets/Scripts/Utils/TileUtil.cs:9-21 | a non-negative index converted to a position flattens back to the same index |
| TileUtil.BoundaryCheckIndexOfTo1DIndex | Assets/Scripts/Utils/TileUtil.cs:9-12 | a position passing the 2D bounds check has a flat index passing the index bounds check (line 65-68 overload) |
| TileUtil.To1DIndexInjective | Assets/Scripts/Utils/TileUtil.cs:9-12 | two in-bounds positions with the same flat index are equal |
| TileUtil.WorldTileToTileInverse | Assets/Scripts/Utils/TileUtil.cs:50-58 | for a fixed chunk and size, world-to-local and local-to-world undo each other, in both orders |
| TileUtil.BoundaryCheckInChunkRange | Assets/Scripts/Utils/TileUtil.cs:70-73 | the three-argument bounds check holds iff c*size <= w < c*size + size in each component |
| TileUtil.WorldTileInOwnChunk | Assets/Scripts/Utils/TileUtil.cs:32-63 | every world tile lies in the chunk WorldTileToChunk names, at a local tile that passes the bounds check |
| TileUtil.WorldTileToChunkUnique | Assets/Scripts/Utils/TileUtil.cs:32-39 | a chunk whose rectangle holds w is the chunk WorldTileToChunk returns: each world tile belongs to exactly one chunk |
| TileLights.EmissionZero | Assets/Scripts/Tile/TileLight.cs:11 | a constant; GetEmission states that the emission equals it iff the three torch channels are 0 |
| TileLights.LightType | Assets/Scripts/Tile/TileLight.cs:3 | the four channel names S, R, G, B; GetLight and SetLight dispatch on them |
| TileLights.LightEmission | Assets/Scripts/Tile/TileLight.cs:5-12 | three byte channels; GetEmission states how they are filled from a light cell |
| TileLights.TileLight | Assets/Scripts/Tile/TileLight.cs:14-19 | the 16-bit light word; ChannelsDetermineLight states that its four channels are the whole word |
| TileLights.MaxSunLight | Assets/Scripts/Tile/TileLight.cs:16 | the constant 15; MaxLightIsNibbleMax states it is the largest four-bit value, and GetSunLight never exceeds it |
| TileLights.MaxTorchLight | Assets/Scripts/Tile/TileLight.cs:17 | the constant 15; stated by MaxLightIsNibbleMax, and no torch getter exceeds it |
| TileLights.SetSunLight | Assets/Scripts/Tile/TileLight.cs:62-65 | no contract of its own; stated by SetSunLightChannels, SunTwice and EmissionIgnoresSun |
| TileLights.SetRedLight | Assets/Scripts/Tile/TileLight.cs:72-75 | no contract of its own; stated by SetRedLightChannels, RedTwice and SetRedLightUnmasked |
| TileLights.SetGreenLight | Assets/Scripts/Tile/TileLight.cs:82-85 | no contract of its own; stated by SetGreenLightChannels and GreenTwice |
| TileLights.SetBlueLight | Assets/Scripts/Tile/TileLight.cs:92-95 | no contract of its own; stated by SetBlueLightChannels and BlueTwice |
| TileLights.RedTwice | Assets/Scripts/Tile/TileLight.cs:72-75 | a second red write replaces a first one in [0, 15] |
| TileLights.GreenTwice | Assets/Scripts/Tile/TileLight.cs:82-85 | a second green write replaces a first one in [0, 15] |
| TileLights.BlueTwice | Assets/Scripts/Tile/TileLight.cs:92-95 | a second blue write replaces a first one in [0, 15] |
| TileLights.GetSunLight | Assets/Scripts/Tile/TileLight.cs:57-60 | the sun channel is at most MaxSunLight (15) whatever the 16-bit contents |
| TileLights.GetRedLight | Assets/Scripts/Tile/TileLight.cs:67-70 | the red channel is at most MaxTorchLight (15) whatever the contents |
| TileLights.GetGreenLight | Assets/Scripts/Tile/TileLight.cs:77-80 | the green channel is at most MaxTorchLight (15) whatever the contents |
| TileLights.GetBlueLight | Assets/Scripts/Tile/TileLight.cs:87-90 | the blue channel is at most MaxTorchLight (15) whatever the contents |
| TileLights.SetSunLightChannels | Assets/Scripts/Tile/TileLight.cs:57-65 | after setting the sun to v it reads back v & 0xF (v itself for 0..15); red, green and blue keep their values for every v |
| TileLights.SetRedLightChannels | Assets/Scripts/Tile/TileLight.cs:67-75 | after setting red to v it reads back v & 0xF (v for 0..15); green and blue keep their values; sun keeps its value for 0..15 |
| TileLights.SetGreenLightChannels | Assets/Scripts/Tile/TileLight.cs:77-85 | after setting green to v it reads back v & 0xF (v for 0..15); blue keeps its value; sun and red keep theirs for 0..15 |
| TileLights.SetBlueLightChannels | Assets/Scripts/Tile/TileLight.cs:87-95 | after setting blue to v it reads back v & 0xF (v for 0..15); the other three channels keep their values for 0..15 |
| TileLights.GetLight | Assets/Scripts/Tile/TileLight.cs:21-31 | the channel getter named by the light type, in [0, 15] |
| TileLights.SetLight | Assets/Scripts/Tile/TileLight.cs:33-50 | the channel named by the type reads back v & 0xF; for 0 <= v <= 15 every other channel is unchanged |
| TileLights.GetEmission | Assets/Scripts/Tile/TileLight.cs:52-55 | the emission's r, g, b are the red, green and blue channels; it is LightEmission.Zero iff all three are 0 |
| TileLights.ChannelsDetermineLight | Assets/Scripts/Tile/TileLight.cs:19-31 | two light cells with equal channels are equal: the four channels are the whole word |
| TileLights.SetLightOwnValue | Assets/Scripts/Tile/TileLight.cs:21-50 | writing a channel's own value back leaves the cell unchanged |
| TileLights.SetLightTwice | Assets/Scripts/Tile/TileLight.cs:33-50 | two in-range writes to the same channel are the same as the second write alone |
| TileLights.SetLightCommutes | Assets/Scripts/Tile/TileLight.cs:33-50 | in-range writes to two different channels give the same cell in either order |
| TileLights.SunTwice | Assets/Scripts/Tile/TileLight.cs:62-65 | a second sun write replaces the first, for any values |
| TileLights.EmissionIgnoresSun | Assets/Scripts/Tile/TileLight.cs:52-65 | setting the sun channel never changes the emission |
| TileLights.MaxLightIsNibbleMax | Assets/Scripts/Tile/TileLight.cs:16-19 | both maxima are 0xF, and the all-ones word reaches them on every channel |
| TileLights.SetRedLightUnmasked | Assets/Scripts/Tile/TileLight.cs:72-75 | the setter does not mask: writing 16 to red of a dark cell leaves red 0 and sets the sun to 1 |
| Tiles.Tile | Assets/Scripts/Tile/Tile.cs:8-15 | the tile record, a datatype with no behaviour; TileChunk.SetTile states how its id is written |
| Tiles.Empty | Assets/Scripts/Tile/TileChunk.cs:93 | the all-zero default tile; TileChunk.GetTile states that it is what an out-of-bounds read returns |
| TileChunks.TileChunk.Init | Assets/Scripts/Tile/TileChunk.cs:29-43 | tile and light arrays of chunkSize.x * chunkSize.y default entries are allocated fresh, and the chunk starts dirty |
| TileChunks.TileChunk.UpdateChunk | Assets/Scripts/Tile/TileChunk.cs:45-50 | afterwards the chunk is not dirty |
| TileChunks.TileChunk.SetSunLight | Assets/Scripts/Tile/TileChunk.cs:62-69 | in bounds: only the cell at To1DIndex changes, its sun reads back value & 0xF, its emission is unchanged, and the chunk is dirty; out of bounds: lights and dirty are unchanged |
| TileChunks.TileChunk.GetSunLight | Assets/Scripts/Tile/TileChunk.cs:71-77 | 0 out of bounds; otherwise the sun channel of the cell at To1DIndex; never above MaxSunLight |
| TileChunks.TileChunk.SetTile | Assets/Scripts/Tile/TileChunk.cs:79-86 | in bounds: only the cell at To1DIndex changes, its id becomes the type, GetTile then returns it with true, and the chunk is dirty; out of bounds: tiles and dirty are unchanged; GetTile at every other position is unchanged |
| TileChunks.TileChunk.GetTile | Assets/Scripts/Tile/TileChunk.cs:88-99 | returns true iff the position is in bounds; out of bounds the tile is the empty tile, in bounds it is the tile in slot To1DIndex(p) |
| TileManagers.RebuiltCount | Assets/Scripts/TileManager.cs:47-61 | a frame rebuilds exactly min(#dirty, max(budget, 0)) chunks, only dirty ones, and none when the budget is <= 0 |
| TileManagers.RebuiltAllWithinBudget | Assets/Scripts/TileManager.cs:47-61 | with at most budget dirty chunks, every dirty chunk is rebuilt, so all end clean |
| TileManagers.TileManager.constructor | Assets/Scripts/TileManager.cs:12-17 | the registry starts empty and valid |
| TileManagers.TileManager.UpdateChunks | Assets/Scripts/TileManager.cs:47-61 | each chunk ends dirty iff it was dirty and not among the first budget dirty chunks in enumeration order (Rebuilt); clean chunks stay clean |
| TileManagers.TileManager.RebuildChunk | Assets/Scripts/TileManager.cs:58-59 | the chunk rebuilt ends clean and every other chunk keeps its flag |
| TileManagers.TileManager.GenerateChunk | Assets/Scripts/TileManager.cs:79-94 | an existing chunk is returned with the map and keys unchanged; otherwise one fresh, dirty, empty chunk is added under the key and enumerated last; no world tile changes |
| TileManagers.TileManager.SetTile | Assets/Scripts/TileManager.cs:63-77 | the chunk WorldTileToChunk names exists afterwards (created if missing) and is dirty; the world tile at w gets the new id and no other world tile changes; other chunks keep their flags |
| TileManagers.TileManager.StoreInChunk | Assets/Scripts/TileManager.cs:68-75 | writing the local tile WorldTileToTile(w) of w's chunk changes the world at w only, and dirties that chunk only |
| TileMeshes.TileIndices | Assets/Scripts/Tile/TileMesh.cs:199-203 | a constant table; stated by QuadTriangles and IndexInOwnQuad |
| TileMeshes.TileVertices | Assets/Scripts/Tile/TileMesh.cs:205-211 | a constant table; stated by VertexOfQuad and QuadTriangles |
| TileMeshes.ColliderPoints | Assets/Scripts/Tile/TileMesh.cs:213-219 | a constant table; stated by ColliderPathAxisAligned |
| TileMeshes.FluidAlpha | Assets/Scripts/Tile/TileMesh.cs:175-176 | the water alpha is at least 76 (density clamped to 0.3), 255 at full density |
| TileMeshes.QuadColor | Assets/Scripts/Tile/TileMesh.cs:170-178 | a solid tile gets its colour; a non-solid one gets its r, g, b with the water alpha |
| TileMeshes.AppendQuad | Assets/Scripts/Tile/TileMesh.cs:159-190 | one more quad appends its 4 vertices, 4 uvs, 4 colours, path and 6 indices to the buffers, and its cells to the covered ones |
| TileMeshes.CoveredByIndex | Assets/Scripts/Tile/TileMesh.cs:76-193 | a cell is covered by the quad list iff some quad in it covers the cell |
| TileMeshes.CoveredOnce | Assets/Scripts/Tile/TileMesh.cs:90-94 | in a pairwise-disjoint list, every covered cell is covered by exactly one quad |
| TileMeshes.OverlapWitness | Assets/Scripts/Tile/TileMesh.cs:113-156 | two non-empty quads that are not disjoint share a named cell |
| TileMeshes.MeshSizes | Assets/Scripts/Tile/TileMesh.cs:159-193 | after n quads: 4n vertices, uvs and colours, 6n indices, n paths of 4 points each |
| TileMeshes.IndexInOwnQuad | Assets/Scripts/Tile/TileMesh.cs:187-190 | index j of the buffer belongs to quad j / 6, so every index is < 4n and points at its own quad's vertices |
| TileMeshes.VertexOfQuad | Assets/Scripts/Tile/TileMesh.cs:162-165 | vertex 4k + i is corner i of the k-th quad, scaled and moved |
| TileMeshes.QuadTriangles | Assets/Scripts/Tile/TileMesh.cs:199-211 | the two triangles of tileIndices wind the same way, and each has twice-area width * height, so together they cover the quad |
| TileMeshes.ColliderPathAxisAligned | Assets/Scripts/Tile/TileMesh.cs:182-185 | each step of the collider path, including the closing one, moves along exactly one axis |
| TileMeshes.TileMesh.constructor | Assets/Scripts/Tile/TileMesh.cs:40-46 | the sizes and chunk position are stored and every buffer and visited are empty |
| TileMeshes.TileMesh.ExtendMesh | Assets/Scripts/Tile/TileMesh.cs:96-190 | emitting a valid quad over unvisited cells, with those cells marked, keeps buffers, visited and quads in step |
| TileMeshes.TileMesh.CoveredTile | Assets/Scripts/Tile/TileMesh.cs:84-88 | a cell covered by valid quads is in the chunk and holds a non-zero tile |
| TileMeshes.TileMesh.ExtendQuads | Assets/Scripts/Tile/TileMesh.cs:90-94 | a valid quad none of whose cells is visited keeps the list pairwise disjoint and visited equal to the covered cells |
| TileMeshes.TileMesh.GenerateMesh | Assets/Scripts/Tile/TileMesh.cs:65-196 | from cleared buffers: the quads lie in the chunk, each covers one non-zero tile id, no two overlap; a chunk cell is covered iff its tile is non-zero; visited is exactly the covered cells; the buffers are exactly the quads' geometry and colours |
| TileMeshes.TileMesh.MeshColumn | Assets/Scripts/Tile/TileMesh.cs:78-194 | after column x every non-zero tile of the column is covered, earlier cover is kept, and the mesh state stays consistent |
| TileMeshes.TileMesh.AddQuad | Assets/Scripts/Tile/TileMesh.cs:96-193 | one valid quad with origin at the tile is appended; it covers the run of height cells the y loop then skips, y + height <= chunkSize.y, and it is the greedy one: its run stops at the chunk top, a different tile or a visited one, and its width stops at the chunk edge or the first column that does not fit |
| TileMeshes.TileMesh.GrowQuad | Assets/Scripts/Tile/TileMesh.cs:96-178 | the rectangle starts at the tile, lies in the chunk, holds only that tile id, covers only unvisited cells, and visited grows by exactly its cells; it is maximal as the loops make it: the cell above it is outside the chunk, a different tile or visited, and the column to its right is outside the chunk or does not fully fit |
| TileMeshes.TileMesh.RunsMakeQuad | Assets/Scripts/Tile/TileMesh.cs:96-157 | origin, vertical run and accepted columns are exactly the rectangle's cells, all unvisited and of the tile's id |
| TileMeshes.TileMesh.GrowHeight | Assets/Scripts/Tile/TileMesh.cs:98-117 | the run above the origin is of equal, unvisited tiles inside the chunk, visited grows by exactly it, and it stops at the chunk top, a different tile or a visited one |
| TileMeshes.TileMesh.ColumnFits | Assets/Scripts/Tile/TileMesh.cs:123-142 | true iff every one of the height cells of the column is in the chunk, of the tile's id and unvisited |
| TileMeshes.TileMesh.MarkColumn | Assets/Scripts/Tile/TileMesh.cs:149-156 | visited grows by exactly the height cells of the column |
| TileMeshes.TileMesh.GrowWidth | Assets/Scripts/Tile/TileMesh.cs:119-157 | the accepted columns are whole and fit, visited grows by exactly them, x + width <= chunkSize.x, and it stops at the chunk edge or the first column that does not fit (left unmarked) |
| TileMeshes.TileMesh.EmitQuad | Assets/Scripts/Tile/TileMesh.cs:159-190 | appends one quad's four vertices, uvs, colours and collider points, and its six indices offset by 4 * numQuads |
| TileLightTextures.Intensity | Assets/Scripts/Tile/TileLightTexture.cs:78-80 | the brighter of a torch channel and the sun: at least both, equal to one, at most 15 |
| TileLightTextures.PixelColor | Assets/Scripts/Tile/TileLightTexture.cs:72-82 | alpha 255; each of r, g, b is at least the sun and its torch channel, equal to one of them, and at most 15 |
| TileLightTextures.PixelColorCases | Assets/Scripts/Tile/TileLightTexture.cs:72-82 | without sun the pixel is the emission colour; with the sun at least every torch channel it is a grey of the sun level |
| TileLightTextures.PixelColorMonotoneInSun | Assets/Scripts/Tile/TileLightTexture.cs:72-82 | raising a cell's sun (within 15) never darkens its pixel |
| TileLightTextures.TileLightTexture.constructor | Assets/Scripts/Tile/TileLightTexture.cs:29-36 | stores the sizes and position and allocates a chunkSize.x by chunkSize.y texture |
| TileLightTextures.TileLightTexture.UpdateTexture | Assets/Scripts/Tile/TileLightTexture.cs:62-88 | every pixel (x, y) of the chunk becomes PixelColor of the light at To1DIndex(TileToWorldTile(x, y), mapSize); the lights array is unchanged |

## Left out

- Unity plumbing: `Awake` and the Unity-facing parts of `Init` (materials, `GameObject` creation, layers, transforms, the light quad's mesh) are left out. So are `TileMesh.UpdateMesh` (copying the buffers into `Mesh` and `PolygonCollider2D`), `texture.Apply`, `Debug.Log` and `TileChunk.UpdateMesh`/`UpdateLightTexture`.
- TileChunks.TileChunk.UpdateChunk: models only the flag clear. Its call `mesh.UpdateMesh(tiles)` is not modelled because it passes a `Tile[]` where `TileMesh.UpdateMesh` takes an `int[]` and a `float[]`. Its call `lightTexture.UpdateTexture(lights)` does match the callee, but it is not modelled either: the light texture reads a world-sized array through `mapSize`, while the chunk holds chunk-local lights, and the chunk initialises it with two of the four `Init` arguments.
- `TileManager.Start` is left out. It fills the world from simplex-noise floats, and the model starts from an arbitrary registry instead.
- `TileUtil.WorldToWorldtile` is left out because it floors a float world position.
- TileUtil.WorldTileToChunk: the float quotient with `Mathf.FloorToInt` is exact integer floor division here. The two agree only while coordinates stay within float precision.
- TileUtil.To2DIndex: requires a non-negative index and a positive width. C# truncating `%`/`/` on negative indices is not modelled.
- C# 32-bit `int` overflow is not modelled for coordinates, indices and tile ids, which are unbounded integers. Light channel values are `bv32`, so they do wrap.
- TileLights.SetLight: the other channels are promised unchanged only for 0 <= v <= 15, because the setters do not mask. SetRedLightUnmasked shows the spill for v = 16.
- TileLights.SetLightTwice: stated for in-range values only.
- TileLights.SetLightCommutes: stated for in-range values only.
- The setter `TileLights.SetSunLight` and its red, green and blue counterparts carry no contract of their own. What they do is stated by the `Set*LightChannels` lemmas.
- The tile catalog `TileManager.tileInformations` is not declared in any modelled file. The mesher takes it as the parameter `catalog`.
- TileMeshes.TileMesh.GenerateMesh: takes its tile, density and catalog arrays as sequences. It requires that the chunk's tiles exist in the world-sized array and that every non-zero id indexes the catalog, which the C# needs to avoid an out-of-range exception. It also requires a density for every non-solid tile of the chunk. That is more than the C# reads: it reads a density only at each quad's origin cell, so a world whose density array stops short of other non-solid cells meshes in the C# but is outside this contract.
- TileMeshes.TileMesh.GrowQuad: computes the quad colour once instead of once per vertex. The four computations in the source are identical.
- TileMeshes.FluidAlpha: uses exact real arithmetic for the clamp and the byte truncation. Float rounding is not modelled.
- Mesh vertices, uvs and collider points are integer pairs, because every value the mesher stores in a float vector is an integer with a zero z (and w).
- TileLightTextures.TileLightTexture.UpdateTexture: states each pixel's final value, not that each pixel is written only once. The texture is an `array2` written in place, and `SetPixel` is that array write.
- Dictionary enumeration order is unspecified in C#. It is modelled as the `keys` sequence with insertion order.
- `TileManager.GenerateChunk` sets the chunk's world position with `ChunkToWorld`. That transform is not part of the model.
- TileUtil.ChunkToWorld: returns an exact integer pair, where the C# returns a float `Vector2`. The two agree while the product stays within float precision.
- TileLightTextures.TileLightTexture.UpdateTexture: requires every pixel's light index to be inside the light array. Where it is not, the C# throws `IndexOutOfRangeException` after writing the earlier pixels, and that partial write is not modelled.
- TileLights.GetLight: the light type is a four-case datatype. A C# enum variable cast from any other integer makes `GetLight` return 0 and `SetLight` do nothing, and those values are not modelled.
- TileLightTextures.TileLightTexture.constructor: requires non-negative sizes. The C# passes the sizes to `new Texture2D` unchecked, and what Unity does with a negative size is not modelled.
- TileMeshes.TileMesh.GenerateMesh: the greedy maximality of each quad (its run stops at the chunk top, a different tile or a visited cell; its width stops at the chunk edge or the first column that does not fit) is proved by AddQuad and GrowQuad for each quad as it is made. The contracts of MeshColumn and GenerateMesh do not carry it up, so their ensures alone also admit other exact, disjoint covers.
- TileChunks.TileChunk.Init: requires `size.x * size.y >= 0`. For a negative product the C# array allocation throws `OverflowException`, which is not modelled.
- TileUtil.WorldTileToChunk: requires a positive chunk size. For a zero size the C# float division gives an infinity or NaN, and the resulting `Mathf.FloorToInt` value is not modelled.
- TileManagers.TileManager.constructor: requires a positive chunk size for the same reason. Every routing of a world tile goes through TileUtil.WorldTileToChunk.
- `TileChunk.Init` calls `TileMesh.Init` and `TileLightTexture.Init` with two arguments, while they take four. The chunk, the mesher and the light texture are therefore modelled separately and not wired together.
