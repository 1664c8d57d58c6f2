/**
 * Chunk loading (src/world/mod.rs): the initial 11 x 11 block of chunks around
 * the origin, and the pass that, each frame, generates the chunks within
 * `CHUNK_LOAD_DISTANCE` of the camera's chunk that are not cached yet.
 *
 * Chunk coordinates are `i32` and the camera window is computed with
 * saturating arithmetic, so near the edge of the `i32` range the window is
 * clamped rather than wrapped. Each pass is the fold `InitialScan` or
 * `AroundScan` over the window offsets in loop order; the methods run the
 * source's nested loops and are proved to produce the fold, and the lemmas
 * say what the fold adds, keeps and covers.
 */
module World {
  import Optional
  import opened WorldTerrain

  /** Number of offsets per axis, `-CHUNK_LOAD_DISTANCE ..= CHUNK_LOAD_DISTANCE`. */
  const SPAN: int := 2 * CHUNK_LOAD_DISTANCE + 1

  // ---------------------------------------------------------------------------
  // Saturating chunk coordinates

  /** The `i32` nearest to `n`. */
  function Clamp(n: int): i32
  {
    if n < I32_MIN then I32_MIN as i32 else if n > I32_MAX then I32_MAX as i32 else n as i32
  }

  /** `i32::saturating_add`. */
  function SaturatingAdd(a: i32, b: i32): i32
  {
    Clamp(a as int + b as int)
  }

  /** `i32::saturating_sub`. */
  function SaturatingSub(a: i32, b: i32): i32
  {
    Clamp(a as int - b as int)
  }

  /**
   * The chunk coordinate `offset` chunks away from `c`: a negative offset
   * subtracts its magnitude, a non-negative one adds it. Negating the
   * offset needs it to be above `i32::MIN`.
   */
  function ChunkCoord(c: i32, offset: i32): i32
    requires offset as int > I32_MIN
  {
    if offset < 0 then SaturatingSub(c, -offset) else SaturatingAdd(c, offset)
  }

  /**
   * Both branches step `offset` chunks and stop at the ends of the `i32`
   * range; away from the ends the step is exact.
   */
  lemma ChunkCoordClamps(c: i32, offset: i32)
    requires offset as int > I32_MIN
    ensures ChunkCoord(c, offset) == Clamp(c as int + offset as int)
    ensures I32_MIN <= c as int + offset as int <= I32_MAX ==> ChunkCoord(c, offset) as int == c as int + offset as int
  {
  }

  /** Clamping keeps the order of its arguments. */
  lemma ClampMonotone(m: int, n: int)
    requires m <= n
    ensures Clamp(m) <= Clamp(n)
  {
  }

  // ---------------------------------------------------------------------------
  // The camera window

  /** The chunk visited at offset indices `(i, j)`, that is offsets `(i - 5, j - 5)`. */
  function WindowCell(cam: IVec2, i: int, j: int): IVec2
    requires 0 <= i < SPAN && 0 <= j < SPAN
  {
    IVec2(ChunkCoord(cam.x, (i - CHUNK_LOAD_DISTANCE) as i32), ChunkCoord(cam.y, (j - CHUNK_LOAD_DISTANCE) as i32))
  }

  /** The square of chunks within `CHUNK_LOAD_DISTANCE` of `cam` on each axis, clamped to `i32`. */
  predicate InWindow(cam: IVec2, p: IVec2)
  {
    && Clamp(cam.x as int - CHUNK_LOAD_DISTANCE) <= p.x <= Clamp(cam.x as int + CHUNK_LOAD_DISTANCE)
    && Clamp(cam.y as int - CHUNK_LOAD_DISTANCE) <= p.y <= Clamp(cam.y as int + CHUNK_LOAD_DISTANCE)
  }

  /** Every visited chunk lies in the window. */
  lemma WindowCellInWindow(cam: IVec2, i: int, j: int)
    requires 0 <= i < SPAN && 0 <= j < SPAN
    ensures InWindow(cam, WindowCell(cam, i, j))
  {
    ChunkCoordClamps(cam.x, (i - CHUNK_LOAD_DISTANCE) as i32);
    ChunkCoordClamps(cam.y, (j - CHUNK_LOAD_DISTANCE) as i32);
    ClampMonotone(cam.x as int - CHUNK_LOAD_DISTANCE, cam.x as int + i - CHUNK_LOAD_DISTANCE);
    ClampMonotone(cam.x as int + i - CHUNK_LOAD_DISTANCE, cam.x as int + CHUNK_LOAD_DISTANCE);
    ClampMonotone(cam.y as int - CHUNK_LOAD_DISTANCE, cam.y as int + j - CHUNK_LOAD_DISTANCE);
    ClampMonotone(cam.y as int + j - CHUNK_LOAD_DISTANCE, cam.y as int + CHUNK_LOAD_DISTANCE);
  }

  /** Every chunk of the window is visited, at the offsets that lead to it. */
  lemma WindowCellCovers(cam: IVec2, p: IVec2) returns (i: int, j: int)
    requires InWindow(cam, p)
    ensures 0 <= i < SPAN && 0 <= j < SPAN && WindowCell(cam, i, j) == p
  {
    i := p.x as int - cam.x as int + CHUNK_LOAD_DISTANCE;
    j := p.y as int - cam.y as int + CHUNK_LOAD_DISTANCE;
    ChunkCoordClamps(cam.x, (i - CHUNK_LOAD_DISTANCE) as i32);
    ChunkCoordClamps(cam.y, (j - CHUNK_LOAD_DISTANCE) as i32);
  }

  // ---------------------------------------------------------------------------
  // The camera pass as a fold

  /** `generate_chunk_data` with the cache's noise, as a function of the chunk position. */
  function ChunkGenerator(noise: (real, real) -> real): IVec2 -> TerrainChunk
  {
    p => ChunkData(noise, p)
  }

  /** The loops have reached offset indices `(i, j)`; `(SPAN, 0)` is the end. */
  predicate ScanPos(i: int, j: int)
  {
    0 <= i <= SPAN && 0 <= j <= SPAN && (i == SPAN ==> j == 0)
  }

  /** The chunk map once the camera pass has reached `(i, j)`: absent chunks are generated, present ones kept. */
  function AroundScan<V>(chunks: map<IVec2, V>, gen: IVec2 -> V, cam: IVec2, i: int, j: int)
    : map<IVec2, V>
    requires ScanPos(i, j)
    decreases i, j
  {
    if j == 0 then
      if i == 0 then chunks else AroundScan(chunks, gen, cam, i - 1, SPAN)
    else
      var m := AroundScan(chunks, gen, cam, i, j - 1);
      var p := WindowCell(cam, i, j - 1);
      if p in m then m else m[p := gen(p)]
  }

  /** One step of the camera pass: the chunk visited at `(i, j)` is generated if absent. */
  lemma AroundScanStep<V>(chunks: map<IVec2, V>, gen: IVec2 -> V, cam: IVec2, i: int, j: int)
    requires 0 <= i < SPAN && 0 <= j < SPAN
    ensures WindowCell(cam, i, j) in AroundScan(chunks, gen, cam, i, j) ==>
              AroundScan(chunks, gen, cam, i, j + 1) == AroundScan(chunks, gen, cam, i, j)
    ensures WindowCell(cam, i, j) !in AroundScan(chunks, gen, cam, i, j) ==>
              AroundScan(chunks, gen, cam, i, j + 1)
              == AroundScan(chunks, gen, cam, i, j)[WindowCell(cam, i, j) := gen(WindowCell(cam, i, j))]
  {
  }

  /** The pass never drops or overwrites a cached chunk. */
  lemma {:induction false} AroundScanKeeps<V>(chunks: map<IVec2, V>, gen: IVec2 -> V, cam: IVec2,
                                           i: int, j: int, p: IVec2)
    requires ScanPos(i, j) && p in chunks
    ensures p in AroundScan(chunks, gen, cam, i, j) && AroundScan(chunks, gen, cam, i, j)[p] == chunks[p]
    decreases i, j
  {
    if j == 0 {
      if i > 0 {
        AroundScanKeeps(chunks, gen, cam, i - 1, SPAN, p);
      }
    } else {
      AroundScanKeeps(chunks, gen, cam, i, j - 1, p);
    }
  }

  /** A chunk the pass adds lies in the camera window and is the generated chunk for its position. */
  lemma {:induction false} AroundScanAdds<V>(chunks: map<IVec2, V>, gen: IVec2 -> V, cam: IVec2,
                                          i: int, j: int, p: IVec2)
    requires ScanPos(i, j) && p in AroundScan(chunks, gen, cam, i, j) && p !in chunks
    ensures InWindow(cam, p) && AroundScan(chunks, gen, cam, i, j)[p] == gen(p)
    decreases i, j
  {
    if j == 0 {
      AroundScanAdds(chunks, gen, cam, i - 1, SPAN, p);
    } else if p in AroundScan(chunks, gen, cam, i, j - 1) {
      AroundScanAdds(chunks, gen, cam, i, j - 1, p);
    } else {
      WindowCellInWindow(cam, i, j - 1);
    }
  }

  /** Every chunk visited so far is in the map. */
  lemma {:induction false} AroundScanCovers<V>(chunks: map<IVec2, V>, gen: IVec2 -> V, cam: IVec2,
                                            i: int, j: int, a: int, b: int)
    requires ScanPos(i, j) && 0 <= a < SPAN && 0 <= b < SPAN && (a < i || (a == i && b < j))
    ensures WindowCell(cam, a, b) in AroundScan(chunks, gen, cam, i, j)
    decreases i, j
  {
    if j == 0 {
      AroundScanCovers(chunks, gen, cam, i - 1, SPAN, a, b);
    } else if (a, b) != (i, j - 1) {
      AroundScanCovers(chunks, gen, cam, i, j - 1, a, b);
    }
  }

  /** After the whole pass every chunk of the camera window is cached. */
  lemma AroundScanCoversWindow<V>(chunks: map<IVec2, V>, gen: IVec2 -> V, cam: IVec2, p: IVec2)
    requires InWindow(cam, p)
    ensures p in AroundScan(chunks, gen, cam, SPAN, 0)
  {
    var i, j := WindowCellCovers(cam, p);
    AroundScanCovers(chunks, gen, cam, SPAN, 0, i, j);
  }

  /** When the whole window is already cached the pass changes nothing. */
  lemma {:induction false} AroundScanNoop<V>(chunks: map<IVec2, V>, gen: IVec2 -> V, cam: IVec2,
                                          i: int, j: int)
    requires ScanPos(i, j)
    requires forall p :: InWindow(cam, p) ==> p in chunks
    ensures AroundScan(chunks, gen, cam, i, j) == chunks
    decreases i, j
  {
    if j == 0 {
      if i > 0 {
        AroundScanNoop(chunks, gen, cam, i - 1, SPAN);
      }
    } else {
      AroundScanNoop(chunks, gen, cam, i, j - 1);
      WindowCellInWindow(cam, i, j - 1);
      assert WindowCell(cam, i, j - 1) in AroundScan(chunks, gen, cam, i, j - 1);
    }
  }

  /** Running the camera pass twice for the same camera chunk is the same as running it once. */
  lemma AroundScanIdempotent<V>(chunks: map<IVec2, V>, gen: IVec2 -> V, cam: IVec2)
    ensures AroundScan(AroundScan(chunks, gen, cam, SPAN, 0), gen, cam, SPAN, 0)
            == AroundScan(chunks, gen, cam, SPAN, 0)
  {
    var once := AroundScan(chunks, gen, cam, SPAN, 0);
    forall p | InWindow(cam, p)
      ensures p in once
    {
      AroundScanCoversWindow(chunks, gen, cam, p);
    }
    AroundScanNoop(once, gen, cam, SPAN, 0);
  }

  // ---------------------------------------------------------------------------
  // The initial block as a fold

  /** The chunk visited at offset indices `(i, j)` around the origin. */
  function InitialCell(i: int, j: int): IVec2
    requires 0 <= i < SPAN && 0 <= j < SPAN
  {
    IVec2((i - CHUNK_LOAD_DISTANCE) as i32, (j - CHUNK_LOAD_DISTANCE) as i32)
  }

  /** The 11 x 11 block of chunks around the origin. */
  predicate InInitialWindow(p: IVec2)
  {
    -CHUNK_LOAD_DISTANCE <= p.x as int <= CHUNK_LOAD_DISTANCE && -CHUNK_LOAD_DISTANCE <= p.y as int <= CHUNK_LOAD_DISTANCE
  }

  /** `p` is in the initial block and the loops have already visited it at `(i, j)`. */
  predicate InitialVisited(p: IVec2, i: int, j: int)
  {
    && InInitialWindow(p)
    && (p.x as int + CHUNK_LOAD_DISTANCE < i || (p.x as int + CHUNK_LOAD_DISTANCE == i && p.y as int + CHUNK_LOAD_DISTANCE < j))
  }

  /** The chunk map once the initial loops have reached `(i, j)`: every visited chunk is (re)generated. */
  function InitialScan<V>(chunks: map<IVec2, V>, gen: IVec2 -> V, i: int, j: int)
    : map<IVec2, V>
    requires ScanPos(i, j)
    decreases i, j
  {
    if j == 0 then
      if i == 0 then chunks else InitialScan(chunks, gen, i - 1, SPAN)
    else
      var p := InitialCell(i, j - 1);
      InitialScan(chunks, gen, i, j - 1)[p := gen(p)]
  }

  /**
   * The map holds the old chunks plus every visited chunk; a visited chunk
   * is the generated one, even if it was cached before; any other old chunk
   * is kept.
   */
  lemma {:induction false} InitialScanFacts<V>(chunks: map<IVec2, V>, gen: IVec2 -> V,
                                            i: int, j: int, p: IVec2)
    requires ScanPos(i, j)
    ensures p in InitialScan(chunks, gen, i, j) <==> p in chunks || InitialVisited(p, i, j)
    ensures InitialVisited(p, i, j) ==> InitialScan(chunks, gen, i, j)[p] == gen(p)
    ensures p in chunks && !InitialVisited(p, i, j) ==> InitialScan(chunks, gen, i, j)[p] == chunks[p]
    decreases i, j
  {
    if j == 0 {
      if i > 0 {
        InitialScanFacts(chunks, gen, i - 1, SPAN, p);
      }
    } else {
      InitialScanFacts(chunks, gen, i, j - 1, p);
    }
  }

  /** The whole camera pass: kept, added only inside the window, and the window covered. */
  lemma AroundScanSummary<V>(chunks: map<IVec2, V>, gen: IVec2 -> V, cam: IVec2)
    ensures forall p :: p in chunks ==>
              p in AroundScan(chunks, gen, cam, SPAN, 0) && AroundScan(chunks, gen, cam, SPAN, 0)[p] == chunks[p]
    ensures forall p :: p in AroundScan(chunks, gen, cam, SPAN, 0) && p !in chunks ==>
              InWindow(cam, p) && AroundScan(chunks, gen, cam, SPAN, 0)[p] == gen(p)
    ensures forall p :: InWindow(cam, p) ==> p in AroundScan(chunks, gen, cam, SPAN, 0)
  {
    forall p | p in chunks
      ensures p in AroundScan(chunks, gen, cam, SPAN, 0) && AroundScan(chunks, gen, cam, SPAN, 0)[p] == chunks[p]
    {
      AroundScanKeeps(chunks, gen, cam, SPAN, 0, p);
    }
    forall p | p in AroundScan(chunks, gen, cam, SPAN, 0) && p !in chunks
      ensures InWindow(cam, p) && AroundScan(chunks, gen, cam, SPAN, 0)[p] == gen(p)
    {
      AroundScanAdds(chunks, gen, cam, SPAN, 0, p);
    }
    forall p | InWindow(cam, p)
      ensures p in AroundScan(chunks, gen, cam, SPAN, 0)
    {
      AroundScanCoversWindow(chunks, gen, cam, p);
    }
  }

  /** The whole initial pass: the old chunks plus the block, the block regenerated, the rest kept. */
  lemma InitialScanSummary<V>(chunks: map<IVec2, V>, gen: IVec2 -> V)
    ensures forall p :: p in InitialScan(chunks, gen, SPAN, 0) <==> p in chunks || InInitialWindow(p)
    ensures forall p :: InInitialWindow(p) ==> InitialScan(chunks, gen, SPAN, 0)[p] == gen(p)
    ensures forall p :: p in chunks && !InInitialWindow(p) ==> InitialScan(chunks, gen, SPAN, 0)[p] == chunks[p]
  {
    forall p
      ensures p in InitialScan(chunks, gen, SPAN, 0) <==> p in chunks || InInitialWindow(p)
      ensures InInitialWindow(p) ==> InitialScan(chunks, gen, SPAN, 0)[p] == gen(p)
      ensures p in chunks && !InInitialWindow(p) ==> InitialScan(chunks, gen, SPAN, 0)[p] == chunks[p]
    {
      InitialScanFacts(chunks, gen, SPAN, 0, p);
    }
  }

  // ---------------------------------------------------------------------------
  // The systems

  /** `generate_initial_chunks`: generate and insert every chunk with both coordinates in `-5 ..= 5`. */
  method GenerateInitialChunks(cache: TerrainCache)
    modifies cache
    ensures cache.chunks == InitialScan(old(cache.chunks), ChunkGenerator(cache.noise), SPAN, 0)
  {
    ghost var gen := ChunkGenerator(cache.noise);
    ghost var start := cache.chunks;
    ghost var i := 0;
    var x := -CHUNK_LOAD_DISTANCE;
    while x <= CHUNK_LOAD_DISTANCE
      invariant -CHUNK_LOAD_DISTANCE <= x <= CHUNK_LOAD_DISTANCE + 1 && i == x + CHUNK_LOAD_DISTANCE
      invariant cache.chunks == InitialScan(start, gen, i, 0)
    {
      ghost var j := 0;
      var y := -CHUNK_LOAD_DISTANCE;
      while y <= CHUNK_LOAD_DISTANCE
        invariant -CHUNK_LOAD_DISTANCE <= y <= CHUNK_LOAD_DISTANCE + 1 && j == y + CHUNK_LOAD_DISTANCE
        invariant cache.chunks == InitialScan(start, gen, i, j)
      {
        InitialStep(cache, x, y, i, j, gen);
        y := y + 1;
        j := j + 1;
      }
      x := x + 1;
      i := i + 1;
    }
  }

  /** The body of the loops of `generate_initial_chunks`: generate the chunk `(x, y)`, offset indices `(i, j)`, and insert it. */
  method InitialStep(cache: TerrainCache, x: int, y: int, ghost i: int, ghost j: int, ghost gen: IVec2 -> TerrainChunk)
    requires -CHUNK_LOAD_DISTANCE <= x <= CHUNK_LOAD_DISTANCE && i == x + CHUNK_LOAD_DISTANCE
    requires -CHUNK_LOAD_DISTANCE <= y <= CHUNK_LOAD_DISTANCE && j == y + CHUNK_LOAD_DISTANCE
    requires gen == ChunkGenerator(cache.noise)
    modifies cache
    ensures cache.chunks == old(cache.chunks)[InitialCell(i, j) := gen(InitialCell(i, j))]
  {
    var chunkPos := IVec2(x as i32, y as i32);
    assert chunkPos == InitialCell(i, j);
    var chunk := GenerateChunkData(cache, chunkPos);
    assert chunk == gen(chunkPos);
    cache.chunks := cache.chunks[chunkPos := chunk];
  }

  /**
   * `generate_chunks_around_camera`, given the camera's chunk (`None` when
   * there is no single camera): generate every chunk of the window around
   * it that is not cached yet.
   */
  method GenerateChunksAroundCamera(cache: TerrainCache, camera: Optional.Option<IVec2>)
    modifies cache
    ensures camera.None? ==> cache.chunks == old(cache.chunks)
    ensures camera.Some? ==> cache.chunks == AroundScan(old(cache.chunks), ChunkGenerator(cache.noise), camera.value, SPAN, 0)
  {
    if camera.None? {
      return;
    }
    var cam := camera.value;
    ghost var gen := ChunkGenerator(cache.noise);
    ghost var start := cache.chunks;
    ghost var i := 0;
    var xOffset := -CHUNK_LOAD_DISTANCE;
    while xOffset <= CHUNK_LOAD_DISTANCE
      invariant -CHUNK_LOAD_DISTANCE <= xOffset <= CHUNK_LOAD_DISTANCE + 1 && i == xOffset + CHUNK_LOAD_DISTANCE
      invariant cache.chunks == AroundScan(start, gen, cam, i, 0)
    {
      ghost var j := 0;
      var yOffset := -CHUNK_LOAD_DISTANCE;
      while yOffset <= CHUNK_LOAD_DISTANCE
        invariant -CHUNK_LOAD_DISTANCE <= yOffset <= CHUNK_LOAD_DISTANCE + 1 && j == yOffset + CHUNK_LOAD_DISTANCE
        invariant cache.chunks == AroundScan(start, gen, cam, i, j)
      {
        AroundScanStep(start, gen, cam, i, j);
        CameraStep(cache, cam, xOffset, yOffset, i, j, gen);
        yOffset := yOffset + 1;
        j := j + 1;
      }
      xOffset := xOffset + 1;
      i := i + 1;
    }
  }

  /**
   * The body of the loops of `generate_chunks_around_camera`: the window chunk at
   * offsets `(xOffset, yOffset)`, offset indices `(i, j)`, generated and inserted
   * when it is not cached.
   */
  method CameraStep(cache: TerrainCache, cam: IVec2, xOffset: int, yOffset: int, ghost i: int, ghost j: int,
                    ghost gen: IVec2 -> TerrainChunk)
    requires -CHUNK_LOAD_DISTANCE <= xOffset <= CHUNK_LOAD_DISTANCE && i == xOffset + CHUNK_LOAD_DISTANCE
    requires -CHUNK_LOAD_DISTANCE <= yOffset <= CHUNK_LOAD_DISTANCE && j == yOffset + CHUNK_LOAD_DISTANCE
    requires gen == ChunkGenerator(cache.noise)
    modifies cache
    ensures WindowCell(cam, i, j) in old(cache.chunks) ==> cache.chunks == old(cache.chunks)
    ensures WindowCell(cam, i, j) !in old(cache.chunks) ==>
              cache.chunks == old(cache.chunks)[WindowCell(cam, i, j) := gen(WindowCell(cam, i, j))]
  {
    var chunkX := if xOffset < 0 then SaturatingSub(cam.x, -xOffset as i32) else SaturatingAdd(cam.x, xOffset as i32);
    var chunkY := if yOffset < 0 then SaturatingSub(cam.y, -yOffset as i32) else SaturatingAdd(cam.y, yOffset as i32);
    var chunkPos := IVec2(chunkX, chunkY);
    assert chunkPos == WindowCell(cam, i, j);
    if chunkPos !in cache.chunks {
      var chunk := GenerateChunkData(cache, chunkPos);
      assert chunk == gen(chunkPos);
      cache.chunks := cache.chunks[chunkPos := chunk];
    }
  }
}
