# Endless terrain: chunk streaming and height-map colouring

This project models the two pieces of sequential logic at the heart of a
procedural terrain generator written for Unity:

- **EndlessTerrain** streams square terrain chunks around a moving viewer.
  Every tick it hides the chunks it reported visible last tick, rounds the
  viewer position to a chunk coordinate, and walks the square window of
  coordinates within `chunksVisibleInViewDistance` of it. A chunk that
  already exists is refreshed: it is shown exactly when the viewer is within
  `maxViewDistance` (430) of its bounds, and if shown it joins the visible
  list. A missing coordinate gets a new chunk, created hidden. Chunks are
  never removed.
- **MapGenerator** turns a `mapChunkSize` x `mapChunkSize` (241 x 241)
  height map into a flat, row-major colour array. Each cell takes the colour
  of the first terrain region whose height threshold is at least the cell's
  height. `OnValidate` clamps the noise parameters.

Files:

- `Mathf.dfy`: Unity's `Mathf.RoundToInt` on exact reals, rounding half to even.
- `Geometry.dfy`: the ground-plane part of `Vector2` and `Bounds`, with
  `Bounds.SqrDistance` and the proof that it is the squared distance to the
  nearest point of the box.
- `MapGeneration.dfy`: `TerrainType`, the first-match classification, the
  flat index, the colour pass of `GenerateMap` as a method over arrays, and
  `OnValidate` with its written and intended effect.
- `ChunkStreaming.dfy`: the `TerrainChunk` and `EndlessTerrain` classes. The
  tick `UpdateVisibleChunks` is proved against the window scan. Its proof
  state is the predicate `ScanState`.

`UpdateVisibleChunks` is proved to keep `Valid()`. That invariant says:

- every chunk sits under its own coordinate, with the bounds of that coordinate;
- the visible list has no duplicates;
- a chunk is in the visible list exactly when it is shown.

The tick's postcondition says:

- no entry is removed or replaced;
- every window coordinate has a chunk afterwards;
- new chunks are fresh, hidden, and lie in the window;
- a chunk is shown exactly when it existed before the tick, lies in the
  window, and passes the distance test.

Behaviour worth noting, as the code has it:

- a new chunk stays hidden during the tick that creates it. Its constructor
  ends with `SetVisible(false)` (EndlessTerrain.cs:72), and the tick only
  registers it (EndlessTerrain.cs:50) without refreshing it;
- `OnValidate` clamps a negative octave count to 0 (MapGenerator.cs:75),
  although the field is annotated `[Min(1)]` (MapGenerator.cs:17);
- a cell whose height is above every threshold keeps `default(Color)`. The
  array starts with default entries (MapGenerator.cs:39), and the region
  scan writes only on a match (MapGenerator.cs:44-49);
- a negative `persistance` resets `octaves` (MapGenerator.cs:76); see Findings.

## Model

| member | source | states |
|---|---|---|
| Mathf.RoundToInt | Assets/Scripts/EndlessTerrain.cs:36-37 | the result is within one half of the argument, and is even when the argument lies exactly halfway between two integers |
| Mathf.RoundToIntUnique | Assets/Scripts/EndlessTerrain.cs:36-37 | those two properties fix the rounded value: any integer having them is RoundToInt's result |
| Mathf.RoundToIntOfInteger | Assets/Scripts/EndlessTerrain.cs:36-37 | an integral value rounds to itself |
| Geometry.BoundsFromSize | Assets/Scripts/EndlessTerrain.cs:65 | `new Bounds(position, size)` keeps the centre and has half-extents that add up to the size on each axis |
| Geometry.AxisGap | Assets/Scripts/EndlessTerrain.cs:77 | the gap from a coordinate to an interval is non-negative and zero exactly when the coordinate is inside the interval |
| Geometry.SqrDistance | Assets/Scripts/EndlessTerrain.cs:77 | `bounds.SqrDistance(viewer)` is non-negative and zero exactly when the box contains the viewer |
| Geometry.SqrDistanceIsNearest | Assets/Scripts/EndlessTerrain.cs:77 | SqrDistance is the squared distance to the clamped point, which lies in the box, and no point of the box is nearer |
| Geometry.AxisGapIsLeast | Assets/Scripts/EndlessTerrain.cs:77 | on one axis, no point of the interval is nearer than the gap |
| ChunkStreaming.SquaredTestMatchesDistanceTest | Assets/Scripts/EndlessTerrain.cs:77-78 | comparing the square root of SqrDistance with 430 gives the same answer as comparing SqrDistance with 430 squared |
| ChunkStreaming.VisibleIffSomePointInRange | Assets/Scripts/EndlessTerrain.cs:64-78 | a chunk passes the visibility test exactly when some point of its bounds is within 430 of the viewer |
| ChunkStreaming.RoundedAxisWithinHalf | Assets/Scripts/EndlessTerrain.cs:36-37 | the rounded chunk coordinate times the chunk size is within half a chunk of the viewer on that axis |
| ChunkStreaming.ViewerChunkCoord | Assets/Scripts/EndlessTerrain.cs:36-37 | the viewer's coordinate divided by the chunk size and rounded names the chunk whose bounds contain the viewer |
| ChunkStreaming.ViewerInCentreChunk | Assets/Scripts/EndlessTerrain.cs:36-78 | the chunk at the viewer's rounded coordinate always passes the visibility test |
| ChunkStreaming.ChunkBounds | Assets/Scripts/EndlessTerrain.cs:64-65 | a chunk's bounds are centred on its position `coord * size` and are `size` across; `NeighbouringChunksAbut` characterises them |
| ChunkStreaming.NeighbouringChunksAbut | Assets/Scripts/EndlessTerrain.cs:64-65 | the right edge of a chunk's bounds is the left edge of its x neighbour's, and its top edge the bottom edge of its y neighbour's: chunk bounds tile the plane |
| ChunkStreaming.WithinViewDistance | Assets/Scripts/EndlessTerrain.cs:77-78 | the visibility test on squares; `SquaredTestMatchesDistanceTest` shows it agrees with the source's square-root test, and `VisibleIffSomePointInRange` that it holds exactly when some point of the bounds is within 430 |
| ChunkStreaming.ViewRadiusForMapChunkSize | Assets/Scripts/EndlessTerrain.cs:19-20 | with a 241-cell map, the view radius `RoundToInt(430 / 240)` is 2 |
| ChunkStreaming.TerrainChunk.constructor | Assets/Scripts/EndlessTerrain.cs:62-73 | a new chunk is positioned at `coord * size`, its bounds are centred there and are `size` across, and it starts hidden |
| ChunkStreaming.TerrainChunk.UpdateTerrainChunk | Assets/Scripts/EndlessTerrain.cs:75-80 | afterwards the chunk is shown exactly when the squared distance from the viewer to its bounds is at most 430 squared; only its own flag changes |
| ChunkStreaming.TerrainChunk.SetVisible | Assets/Scripts/EndlessTerrain.cs:82-85 | the chunk's active flag becomes the argument; nothing else changes |
| ChunkStreaming.TerrainChunk.IsVisible | Assets/Scripts/EndlessTerrain.cs:87-90 | returns the active flag, so after `SetVisible(b)` it returns `b` |
| ChunkStreaming.EndlessTerrain.constructor | Assets/Scripts/EndlessTerrain.cs:14-15 | starts with no chunks and an empty visible list, a valid state |
| ChunkStreaming.EndlessTerrain.Start | Assets/Scripts/EndlessTerrain.cs:17-21 | the chunk size is `mapChunkSize - 1` = 240, and the view radius is `RoundToInt(430 / chunkSize)` = 2; the chunk dictionary is untouched |
| ChunkStreaming.EndlessTerrain.UpdateVisibleChunks | Assets/Scripts/EndlessTerrain.cs:29-54 | keeps Valid; never removes or replaces an entry; afterwards every window coordinate has a chunk; new chunks are fresh, hidden and in the window; a chunk is shown exactly when it existed before, is in the window and is within 430; the visible list holds only window chunks |
| ChunkStreaming.EndlessTerrain.HideVisibleLastUpdate | Assets/Scripts/EndlessTerrain.cs:31-34 | every chunk is hidden and the visible list is empty; the dictionary is unchanged |
| ChunkStreaming.EndlessTerrain.UpdateRow | Assets/Scripts/EndlessTerrain.cs:40-52 | one pass of the inner loop carries the scan state from the start of row `yOffset` to the start of the next row |
| ChunkStreaming.EndlessTerrain.ScanStep | Assets/Scripts/EndlessTerrain.cs:41-51 | visiting one coordinate advances the scan state by one coordinate |
| ChunkStreaming.EndlessTerrain.VisitChunk | Assets/Scripts/EndlessTerrain.cs:43-51 | an existing chunk is refreshed and listed exactly when shown, with the dictionary unchanged; a missing coordinate gets a fresh hidden chunk and nothing else changes; other chunks keep their flags |
| MapGeneration.FirstRegion | Assets/Scripts/MapGenerator.cs:44-49 | returns the least index whose threshold is at least the height, or none when every threshold is below it |
| MapGeneration.CellColor | Assets/Scripts/MapGenerator.cs:43-49 | the colour a cell of a given height receives; `CellColorIsFirstMatch` characterises it |
| MapGeneration.CellColorIsFirstMatch | Assets/Scripts/MapGenerator.cs:39-49 | a cell takes the colour of the least region whose threshold is at least its height, and keeps the default colour when there is none (including no regions) |
| MapGeneration.SortedRegionsCover | Assets/Scripts/MapGenerator.cs:44-49 | with ascending thresholds reaching 1, every height up to 1 gets a region, namely the one with the smallest qualifying threshold |
| MapGeneration.ThreeBandExample | Assets/Scripts/MapGenerator.cs:44-49 | water/grass/snow bands: boundary heights take the lower band, heights above every band keep the default colour |
| MapGeneration.FlatIndex | Assets/Scripts/MapGenerator.cs:46 | the write index `y * mapChunkSize + x` lies inside the colour array |
| MapGeneration.FlatIndexRoundTrip | Assets/Scripts/MapGenerator.cs:46 | the cell is recovered from its index: the column is the remainder and the row is the quotient |
| MapGeneration.FlatIndexInjective | Assets/Scripts/MapGenerator.cs:46 | distinct cells are written at distinct indices |
| MapGeneration.FlatIndexOnto | Assets/Scripts/MapGenerator.cs:39-46 | every index of the colour array is the index of exactly one cell |
| MapGeneration.MapGenerator.GenerateColorMap | Assets/Scripts/MapGenerator.cs:39-51 | the colour array has `mapChunkSize` squared entries, and each cell's entry is the colour of its first matching region, given only by its own height and the region list |
| MapGeneration.Validated | Assets/Scripts/MapGenerator.cs:72-77 | after validation lacunarity is at least 1 and octaves at least 0; values already in range are kept; a negative octave count or a negative persistance sets octaves to 0; persistance never changes |
| MapGeneration.ValidatedIdempotent | Assets/Scripts/MapGenerator.cs:72-77 | validating twice is the same as validating once |
| MapGeneration.ValidatedKeepsValidSettings | Assets/Scripts/MapGenerator.cs:74-76 | settings already in range are left unchanged |
| MapGeneration.ValidatedLeavesNegativePersistance | Assets/Scripts/MapGenerator.cs:76 | a negative persistance survives validation and the octave count becomes 0 |
| MapGeneration.IntendedValidated | Assets/Scripts/MapGenerator.cs:74-76 | the corrected validation keeps values already in range and sets an out-of-range value to exactly its bound: lacunarity 1, octaves 0, persistance 0 |
| MapGeneration.IntendedValidatedProperties | Assets/Scripts/MapGenerator.cs:74-76 | the corrected validation is idempotent, and agrees with the written one exactly when persistance is not negative |
| MapGeneration.MapGenerator.constructor | Assets/Scripts/MapGenerator.cs:15-25 | the field initialisers: noise scale 10, 3 octaves, persistance 0.5, lacunarity 5, seed 0 |
| MapGeneration.MapGenerator.OnValidate | Assets/Scripts/MapGenerator.cs:72-77 | the in-place clamp leaves exactly the settings `Validated` describes |

## Left out

- Noise generation, mesh building, texture building and the display are not part of this model. The noise map is an input array of reals, and `drawMode` only picks a rendering call.
- Unity object lifecycle is not modelled. This covers creating the plane primitive, its transform and parent, and reading `viewer.position` in `Update`. A chunk's mesh object is reduced to its active flag, and the viewer position is a parameter of the tick.
- Floating point is not modelled: positions, heights and distances are exact reals. `Mathf.Sqrt` is replaced by the equivalent squared comparison (`SquaredTestMatchesDistanceTest`). The division in `viewerPosition / chunkSize` is exact.
- UpdateVisibleChunks: integer width and float keys are not modelled. Chunk coordinates are unbounded integers. The source rounds to a 32-bit `int` and adds the offsets in 32 bits (EndlessTerrain.cs:36-37, 41). It also keys the dictionary by a float `Vector2` (line 41). Beyond 2^24, neighbouring coordinates such as 16777216 and 16777217 collapse to the same key. A tick there can visit one chunk twice, listing it twice or refreshing a chunk it just created. The model's results match the source only while every coordinate stays below 2^24 in magnitude.
- TerrainChunk keeps its coordinate as a ghost field. The source does not store it; the model needs it to state that each chunk sits under its own key.
- The tick's two nested loops are split across `UpdateVisibleChunks`, `UpdateRow` and `ScanStep`, and the loop body is in `VisitChunk`. The statements and their order are those of the source.
- `Color` is an RGBA value, but the model uses only its default value.
- A null `regions` array is not modelled: regions is a sequence, possibly empty.
- `levelOfDetail`, `meshHeightMultiplier`, `meshHeightCurve`, `offset` and `autoUpdate` only feed the left-out routines.
- Editor attributes such as `[Range]` and `[Min]` are not enforced at run time and are not modelled.
- UpdateVisibleChunks: the source reads `chunkSize` set by `Start`; the model requires it to be positive instead of requiring that `Start` ran.

## Findings

| source | as written | input that shows it | evidently intended | confidence | as-written member | corrected member |
|---|---|---|---|---|---|---|
| Assets/Scripts/MapGenerator.cs:76 | `if (persistance < 0) { octaves = 0; }` resets the octave count and leaves persistance negative | octaves 3, persistance -0.5, lacunarity 5: octaves becomes 0, persistance stays -0.5 | `persistance = 0`, clamping persistance to its own lower bound like the two lines above | high, not executed | MapGeneration.ValidatedLeavesNegativePersistance | MapGeneration.IntendedValidatedProperties |

`MapGenerator.OnValidate` keeps the behaviour as written, since that is what
the program does. `IntendedValidated` is the corrected clamp.
