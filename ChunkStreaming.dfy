/** EndlessTerrain: the chunk-streaming manager. Each tick hides the chunks
    shown last tick, finds the chunk under the viewer, and walks the square
    window of chunk coordinates around it, refreshing the chunks that exist
    and creating (hidden) the ones that do not. Chunks are never removed. */
module ChunkStreaming {
  import opened Geometry
  import Mathf
  import MapGeneration

  /** EndlessTerrain.maxViewDistance. */
  const MaxViewDistance: real := 430.0

  /** A chunk's place on the infinite grid; the key of the chunk dictionary. */
  datatype ChunkCoord = ChunkCoord(x: int, y: int)

  /** World position of the chunk at `coord`: coord * size. */
  function ChunkPosition(coord: ChunkCoord, size: int): Vector2 {
    Vector2((coord.x * size) as real, (coord.y * size) as real)
  }

  /** The bounds of a chunk: centred on its position, `size` across. */
  function ChunkBounds(coord: ChunkCoord, size: int): Bounds {
    BoundsFromSize(ChunkPosition(coord, size), Vector2(size as real, size as real))
  }

  /** The chunk coordinate under the viewer: its position divided by the
      chunk size, each component rounded half to even. The chunk there is
      the one whose bounds contain the viewer. */
  function ViewerChunkCoord(viewer: Vector2, chunkSize: int): (c: ChunkCoord)
    requires chunkSize > 0
    ensures Contains(ChunkBounds(c, chunkSize), viewer)
  {
    RoundedAxisWithinHalf(viewer.x, chunkSize);
    RoundedAxisWithinHalf(viewer.y, chunkSize);
    ChunkCoord(Mathf.RoundToInt(viewer.x / chunkSize as real),
               Mathf.RoundToInt(viewer.y / chunkSize as real))
  }

  /** Chunk bounds tile the plane: the right edge of a chunk is the left edge
      of its neighbour in x, and its top edge the bottom edge of its
      neighbour in y, so neighbouring chunks neither overlap nor leave a gap. */
  lemma NeighbouringChunksAbut(coord: ChunkCoord, size: int)
    ensures var b := ChunkBounds(coord, size);
            var right := ChunkBounds(ChunkCoord(coord.x + 1, coord.y), size);
            var above := ChunkBounds(ChunkCoord(coord.x, coord.y + 1), size);
            && b.center.x + b.extents.x == right.center.x - right.extents.x
            && b.center.y + b.extents.y == above.center.y - above.extents.y
  {
    assert (coord.x + 1) * size == coord.x * size + size;
    assert (coord.y + 1) * size == coord.y * size + size;
  }

  /** The visibility test: the distance from the viewer to the nearest point
      of the bounds is at most maxViewDistance, compared on squares. */
  predicate WithinViewDistance(b: Bounds, viewer: Vector2) {
    SqrDistance(b, viewer) <= MaxViewDistance * MaxViewDistance
  }

  /** `k` lies in the square window of radius `r` around `centre`. */
  predicate InWindow(k: ChunkCoord, centre: ChunkCoord, r: int) {
    && centre.x - r <= k.x <= centre.x + r
    && centre.y - r <= k.y <= centre.y + r
  }

  /** `k` is a window coordinate the row-major scan (rows by y offset, then
      columns by x offset) has passed before reaching offset (dx, dy). */
  ghost predicate ScannedBefore(k: ChunkCoord, centre: ChunkCoord, r: int, dy: int, dx: int) {
    && InWindow(k, centre, r)
    && (k.y - centre.y < dy || (k.y - centre.y == dy && k.x - centre.x < dx))
  }

  ghost predicate NoDuplicates<T>(s: seq<T>) {
    forall i, j | 0 <= i < j < |s| :: s[i] != s[j]
  }

  /** Every entry of `before` is still there, under the same key, in `after`. */
  ghost predicate Grows<K, V>(before: map<K, V>, after: map<K, V>) {
    forall k | k in before :: k in after && after[k] == before[k]
  }

  class TerrainChunk {
    /** The coordinate the chunk was created for (kept for the proofs). */
    ghost const coord: ChunkCoord
    const position: Vector2
    const bounds: Bounds
    /** meshObject.activeSelf */
    var active: bool

    constructor (coord: ChunkCoord, size: int)
      ensures this.coord == coord
      ensures position == ChunkPosition(coord, size)
      ensures bounds == ChunkBounds(coord, size)
      ensures !active
    {
      this.coord := coord;
      position := ChunkPosition(coord, size);
      bounds := BoundsFromSize(ChunkPosition(coord, size), Vector2(size as real, size as real));
      new;
      SetVisible(false);
    }

    /** Shows the chunk exactly when the viewer is within maxViewDistance of
        its bounds. */
    method UpdateTerrainChunk(viewerPosition: Vector2)
      modifies this`active
      ensures active == WithinViewDistance(bounds, viewerPosition)
    {
      var visible := WithinViewDistance(bounds, viewerPosition);
      SetVisible(visible);
    }

    method SetVisible(visible: bool)
      modifies this`active
      ensures active == visible
    {
      active := visible;
    }

    method IsVisible() returns (visible: bool)
      ensures visible == active
    {
      visible := active;
    }
  }

  class EndlessTerrain {
    var chunkSize: int
    var chunksVisibleInViewDistance: int
    var terrainChunks: map<ChunkCoord, TerrainChunk>
    var terrainChunksVisibleLastUpdate: seq<TerrainChunk>

    /** Each chunk sits under its own coordinate with the bounds of that
        coordinate; the visible list holds, once each, exactly the chunks of
        the dictionary that are shown. */
    ghost predicate Valid()
      reads this, terrainChunks.Values
    {
      && chunksVisibleInViewDistance >= 0
      && (forall k | k in terrainChunks ::
            terrainChunks[k].coord == k && terrainChunks[k].bounds == ChunkBounds(k, chunkSize))
      && NoDuplicates(terrainChunksVisibleLastUpdate)
      && (forall c | c in terrainChunksVisibleLastUpdate ::
            c.coord in terrainChunks && terrainChunks[c.coord] == c)
      && (forall k | k in terrainChunks ::
            terrainChunks[k].active <==> terrainChunks[k] in terrainChunksVisibleLastUpdate)
    }

    /** The field initialisers: no chunks, nothing visible. */
    constructor ()
      ensures Valid()
      ensures chunkSize == 0 && chunksVisibleInViewDistance == 0
      ensures terrainChunks == map[] && terrainChunksVisibleLastUpdate == []
    {
      chunkSize, chunksVisibleInViewDistance := 0, 0;
      terrainChunks, terrainChunksVisibleLastUpdate := map[], [];
    }

    /** Start: the chunk size is one less than the map size, and the window
        radius is maxViewDistance in chunks, rounded. */
    method Start()
      requires Valid() && terrainChunks == map[]
      modifies this
      ensures Valid()
      ensures chunkSize == MapGeneration.MapChunkSize - 1 == 240
      ensures chunksVisibleInViewDistance == Mathf.RoundToInt(MaxViewDistance / chunkSize as real) == 2
      ensures terrainChunks == old(terrainChunks)
      ensures terrainChunksVisibleLastUpdate == old(terrainChunksVisibleLastUpdate)
    {
      chunkSize := MapGeneration.MapChunkSize - 1;
      chunksVisibleInViewDistance := Mathf.RoundToInt(MaxViewDistance / chunkSize as real);
      ViewRadiusForMapChunkSize();
    }

    /** One tick with the viewer at `viewerPosition`. */
    method UpdateVisibleChunks(viewerPosition: Vector2)
      requires Valid() && chunkSize > 0
      modifies this, terrainChunks.Values
      ensures Valid()
      ensures chunkSize == old(chunkSize)
      ensures chunksVisibleInViewDistance == old(chunksVisibleInViewDistance)
      // no entry is removed or replaced
      ensures Grows(old(terrainChunks), terrainChunks)
      ensures var centre := ViewerChunkCoord(viewerPosition, chunkSize);
              var r := chunksVisibleInViewDistance;
              // every window coordinate now has a chunk
              && (forall k | InWindow(k, centre, r) :: k in terrainChunks)
              // chunks are created only in the window, fresh and hidden
              && (forall k | k in terrainChunks && k !in old(terrainChunks) ::
                    InWindow(k, centre, r) && fresh(terrainChunks[k]) && !terrainChunks[k].active)
              // shown: the chunks that existed, are in the window and are in range
              && (forall k | k in terrainChunks ::
                    terrainChunks[k].active ==
                      (k in old(terrainChunks) && InWindow(k, centre, r) &&
                       WithinViewDistance(terrainChunks[k].bounds, viewerPosition)))
              && (forall c | c in terrainChunksVisibleLastUpdate :: InWindow(c.coord, centre, r))
    {
      HideVisibleLastUpdate();

      var currentChunkCoordX := Mathf.RoundToInt(viewerPosition.x / chunkSize as real);
      var currentChunkCoordY := Mathf.RoundToInt(viewerPosition.y / chunkSize as real);
      ghost var centre := ChunkCoord(currentChunkCoordX, currentChunkCoordY);
      var r := chunksVisibleInViewDistance;

      var yOffset := -r;
      while yOffset <= r
        invariant -r <= yOffset <= r + 1
        invariant chunkSize == old(chunkSize) && chunksVisibleInViewDistance == r
        invariant ScanState(old(terrainChunks), centre, r, yOffset, -r, viewerPosition)
        invariant forall c | c in terrainChunks.Values :: c in old(terrainChunks).Values || fresh(c)
      {
        UpdateRow(currentChunkCoordX, currentChunkCoordY, yOffset, r, viewerPosition, old(terrainChunks));
        yOffset := yOffset + 1;
      }
      // a chunk under a new key is none of the old ones: each old chunk
      // is still stored under its own, different, coordinate
      forall k | k in terrainChunks && k !in old(terrainChunks)
        ensures fresh(terrainChunks[k])
      {
        forall k' | k' in old(terrainChunks)
          ensures old(terrainChunks)[k'] != terrainChunks[k]
        {
          assert terrainChunks[k'].coord == k';
        }
        assert terrainChunks[k] !in old(terrainChunks).Values;
      }
    }

    /** The state of the window scan when it reaches offset (dx, dy): the
        chunks present at the start of the tick (`before`) are all kept;
        every coordinate passed has a chunk and only those got new ones; a
        chunk is shown exactly when it is an old one, passed, and in range. */
    ghost predicate ScanState(before: map<ChunkCoord, TerrainChunk>, centre: ChunkCoord, r: int,
                              dy: int, dx: int, viewerPosition: Vector2)
      reads this, terrainChunks.Values
    {
      && Valid()
      && Grows(before, terrainChunks)
      && (forall k | k in terrainChunks && k !in before :: ScannedBefore(k, centre, r, dy, dx))
      && (forall k | ScannedBefore(k, centre, r, dy, dx) :: k in terrainChunks)
      && (forall k | k in terrainChunks ::
            terrainChunks[k].active ==
              (k in before && ScannedBefore(k, centre, r, dy, dx) &&
               WithinViewDistance(terrainChunks[k].bounds, viewerPosition)))
    }

    /** The inner loop of UpdateVisibleChunks: one row of the window, x
        offsets -r to r at `yOffset`. */
    method UpdateRow(currentChunkCoordX: int, currentChunkCoordY: int, yOffset: int, r: int,
                     viewerPosition: Vector2, ghost before: map<ChunkCoord, TerrainChunk>)
      requires -r <= yOffset <= r
      requires ScanState(before, ChunkCoord(currentChunkCoordX, currentChunkCoordY), r, yOffset, -r, viewerPosition)
      modifies this`terrainChunks, this`terrainChunksVisibleLastUpdate, terrainChunks.Values
      ensures ScanState(before, ChunkCoord(currentChunkCoordX, currentChunkCoordY), r, yOffset + 1, -r, viewerPosition)
      ensures forall c | c in terrainChunks.Values :: c in old(terrainChunks).Values || fresh(c)
    {
      ghost var centre := ChunkCoord(currentChunkCoordX, currentChunkCoordY);
      var xOffset := -r;
      while xOffset <= r
        invariant -r <= xOffset <= r + 1
        invariant ScanState(before, centre, r, yOffset, xOffset, viewerPosition)
        invariant forall c | c in terrainChunks.Values :: c in old(terrainChunks).Values || fresh(c)
      {
        var viewedChunkCoord := ChunkCoord(currentChunkCoordX + xOffset, currentChunkCoordY + yOffset);
        ScanStep(viewedChunkCoord, centre, r, yOffset, xOffset, viewerPosition, before);
        xOffset := xOffset + 1;
      }
    }

    /** One pass of the inner loop's body, for the coordinate at offset
        (dx, dy): visiting it moves
        the scan one coordinate on. */
    method ScanStep(viewedChunkCoord: ChunkCoord, ghost centre: ChunkCoord, ghost r: int,
                    ghost dy: int, ghost dx: int, viewerPosition: Vector2,
                    ghost before: map<ChunkCoord, TerrainChunk>)
      requires -r <= dy <= r && -r <= dx <= r
      requires viewedChunkCoord == ChunkCoord(centre.x + dx, centre.y + dy)
      requires ScanState(before, centre, r, dy, dx, viewerPosition)
      modifies this`terrainChunks, this`terrainChunksVisibleLastUpdate, terrainChunks.Values
      ensures ScanState(before, centre, r, dy, dx + 1, viewerPosition)
      ensures forall c | c in terrainChunks.Values :: c in old(terrainChunks).Values || fresh(c)
    {
      VisitChunk(viewedChunkCoord, viewerPosition);
      forall k | k in terrainChunks
        ensures terrainChunks[k].active ==
                  (k in before && ScannedBefore(k, centre, r, dy, dx + 1) &&
                   WithinViewDistance(terrainChunks[k].bounds, viewerPosition))
      {
        if k != viewedChunkCoord {
          assert ScannedBefore(k, centre, r, dy, dx + 1) == ScannedBefore(k, centre, r, dy, dx);
        }
      }
    }

    /** The first part of UpdateVisibleChunks: hide every chunk shown last
        tick and empty the list. */
    method HideVisibleLastUpdate()
      requires Valid()
      modifies this`terrainChunksVisibleLastUpdate, terrainChunks.Values
      ensures Valid()
      ensures terrainChunksVisibleLastUpdate == []
      ensures forall k | k in terrainChunks :: !terrainChunks[k].active
    {
      var i := 0;
      while i < |terrainChunksVisibleLastUpdate|
        invariant 0 <= i <= |terrainChunksVisibleLastUpdate|
        invariant forall k | k in terrainChunks ::
                    terrainChunks[k].active <==> terrainChunks[k] in terrainChunksVisibleLastUpdate[i..]
        modifies terrainChunks.Values
      {
        var chunk := terrainChunksVisibleLastUpdate[i];
        assert chunk in terrainChunksVisibleLastUpdate && terrainChunks[chunk.coord] == chunk;
        chunk.SetVisible(false);
        i := i + 1;
      }
      terrainChunksVisibleLastUpdate := [];
    }

    /** The body of the inner loop of UpdateVisibleChunks, for one window
        coordinate: an existing chunk is
        refreshed and listed if now shown; a missing one is created hidden
        and registered. Nothing else changes. */
    method VisitChunk(viewedChunkCoord: ChunkCoord, viewerPosition: Vector2)
      requires Valid()
      requires viewedChunkCoord in terrainChunks ==> !terrainChunks[viewedChunkCoord].active
      modifies this`terrainChunks, this`terrainChunksVisibleLastUpdate, terrainChunks.Values
      ensures Valid()
      ensures viewedChunkCoord in terrainChunks
      ensures viewedChunkCoord in old(terrainChunks) ==>
                && terrainChunks == old(terrainChunks)
                && terrainChunks[viewedChunkCoord].active ==
                     WithinViewDistance(terrainChunks[viewedChunkCoord].bounds, viewerPosition)
      ensures viewedChunkCoord !in old(terrainChunks) ==>
                && terrainChunks == old(terrainChunks)[viewedChunkCoord := terrainChunks[viewedChunkCoord]]
                && fresh(terrainChunks[viewedChunkCoord])
                && !terrainChunks[viewedChunkCoord].active
      ensures forall k | k in old(terrainChunks) && k != viewedChunkCoord ::
                terrainChunks[k].active == old(terrainChunks[k].active)
    {
      if viewedChunkCoord in terrainChunks {
        var chunk := terrainChunks[viewedChunkCoord];
        chunk.UpdateTerrainChunk(viewerPosition);
        var visible := chunk.IsVisible();
        if visible {
          terrainChunksVisibleLastUpdate := terrainChunksVisibleLastUpdate + [chunk];
        }
        forall k | k in terrainChunks && k != viewedChunkCoord
          ensures terrainChunks[k].active == old(terrainChunks[k].active)
        {
          assert terrainChunks[k].coord == k;
        }
      } else {
        var chunk := new TerrainChunk(viewedChunkCoord, chunkSize);
        terrainChunks := terrainChunks[viewedChunkCoord := chunk];
      }
    }
  }

  /** For the map size of MapGenerator the window radius is two chunks:
      430 / 240 is about 1.79, which rounds to 2. */
  lemma ViewRadiusForMapChunkSize()
    ensures Mathf.RoundToInt(MaxViewDistance / (MapGeneration.MapChunkSize - 1) as real) == 2
  {
    Mathf.RoundToIntUnique(MaxViewDistance / 240.0, 2);
  }

  /** The source takes the square root of SqrDistance and compares that with
      maxViewDistance; for the non-negative root `d` this is the same test as
      comparing SqrDistance with the square of maxViewDistance. */
  lemma SquaredTestMatchesDistanceTest(b: Bounds, viewer: Vector2, d: real)
    requires d >= 0.0 && d * d == SqrDistance(b, viewer)
    ensures d <= MaxViewDistance <==> WithinViewDistance(b, viewer)
  {
    if d <= MaxViewDistance {
      SquareMonotone(d, MaxViewDistance);
    } else {
      SquareStrictlyMonotone(MaxViewDistance, d);
    }
  }

  /** A chunk passes the visibility test exactly when some point of its
      bounds is within maxViewDistance of the viewer. */
  lemma VisibleIffSomePointInRange(coord: ChunkCoord, size: int, viewer: Vector2)
    requires size >= 0
    ensures WithinViewDistance(ChunkBounds(coord, size), viewer) <==>
              exists q | Contains(ChunkBounds(coord, size), q) ::
                SqrMagnitude(Sub(viewer, q)) <= MaxViewDistance * MaxViewDistance
  {
    var b := ChunkBounds(coord, size);
    SqrDistanceIsNearest(b, viewer);
    if WithinViewDistance(b, viewer) {
      assert Contains(b, ClosestPoint(b, viewer));
    }
  }

  lemma ScaleLeq(a: real, b: real, s: real)
    requires a <= b && s >= 0.0
    ensures a * s <= b * s
  {
  }

  /** One axis of the centre chunk: the rounded quotient times the size lies
      within half a chunk of the viewer's coordinate. */
  lemma RoundedAxisWithinHalf(v: real, size: int)
    requires size > 0
    ensures var n := Mathf.RoundToInt(v / size as real);
            (n * size) as real - (size as real) / 2.0 <= v <= (n * size) as real + (size as real) / 2.0
  {
    var s := size as real;
    var q := v / s;
    var n := Mathf.RoundToInt(q);
    assert n as real - 0.5 <= q <= n as real + 0.5;
    ScaleLeq(n as real - 0.5, q, s);
    ScaleLeq(q, n as real + 0.5, s);
    calc {
      (n * size) as real - s / 2.0;
    ==
      (n as real - 0.5) * s;
    <=
      q * s;
    ==
      v;
    }
    calc {
      v;
    ==
      q * s;
    <=
      (n as real + 0.5) * s;
    ==
      (n * size) as real + s / 2.0;
    }
  }

  /** The chunk at the viewer's own coordinate always passes the visibility
      test, since its bounds contain the viewer. */
  lemma ViewerInCentreChunk(viewer: Vector2, chunkSize: int)
    requires chunkSize > 0
    ensures WithinViewDistance(ChunkBounds(ViewerChunkCoord(viewer, chunkSize), chunkSize), viewer)
  {
  }
}
