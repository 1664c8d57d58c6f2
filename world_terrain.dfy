/**
 * Chunk generation of the procedural world (src/world/terrain.rs): the layer
 * a chunk belongs to by its height, the feature each of its 32 x 32 cells
 * gets from three noise samples, and the chunk record `generate_chunk_data`
 * builds from them.
 *
 * The Perlin noise is a foreign float library; it is the `noise` function of
 * the cache, about which nothing is assumed. `FeatureScan` is the feature list
 * as a function of how far the nested scan has got, and `GenerateChunkData`
 * runs the source's nested loops and is proved to produce it.
 */
module WorldTerrain {
  const CHUNK_SIZE: int := 32
  const CHUNK_LOAD_DISTANCE: int := 5

  const I32_MIN: int := -0x8000_0000
  const I32_MAX: int := 0x7fff_ffff

  newtype i32 = x: int | -0x8000_0000 <= x < 0x8000_0000

  /** `IVec2`. */
  datatype IVec2 = IVec2(x: i32, y: i32)

  datatype TerrainLayer = Surface | Dirt | Stone | Deep | Bedrock

  datatype TerrainFeature = None | Cave | WaterPocket | ResourceVein | Tunnel

  /** `TerrainChunk`: features are cell offsets inside the chunk with their kind. */
  datatype TerrainChunk = TerrainChunk(
    position: IVec2, layer: TerrainLayer, features: seq<(IVec2, TerrainFeature)>, generated: bool)

  /** The rank of a layer counted from the surface down. */
  function Depth(l: TerrainLayer): nat
  {
    match l
    case Surface => 0
    case Dirt => 1
    case Stone => 2
    case Deep => 3
    case Bedrock => 4
  }

  // ---------------------------------------------------------------------------
  // Layers and features

  /** The layer of a chunk whose chunk coordinate is `y`. */
  function LayerAt(y: int): TerrainLayer
  {
    if y > 0 then Surface
    else if y > -5 then Dirt
    else if y > -10 then Stone
    else if y > -20 then Deep
    else Bedrock
  }

  /** Going down never leads to a shallower layer. */
  lemma LayerDeepens(y1: int, y2: int)
    requires y2 <= y1
    ensures Depth(LayerAt(y1)) <= Depth(LayerAt(y2))
  {
  }

  /** Only chunks above the origin row are surface; only from row -20 down is bedrock. */
  lemma LayerExtremes(y: int)
    ensures LayerAt(y) == Surface <==> y > 0
    ensures LayerAt(y) == Bedrock <==> y <= -20
  {
  }

  /** The feature of one cell in a chunk of `layer`, from its three noise samples. */
  function SelectFeature(layer: TerrainLayer, cave: real, water: real, resource: real): TerrainFeature
  {
    match layer
    case Surface => if cave > 0.7 then Cave else None
    case Dirt => if cave > 0.6 then Cave else if water > 0.8 then WaterPocket else None
    case Stone => if cave > 0.5 then Cave else if resource > 0.7 then ResourceVein else None
    case Deep =>
      if cave > 0.4 then Cave else if water > 0.7 then WaterPocket else if resource > 0.6 then ResourceVein else None
    case Bedrock => if resource > 0.5 then ResourceVein else None
  }

  /**
   * Which features each layer can produce: surface only caves, dirt no
   * veins, stone no water, bedrock only veins, and no layer tunnels.
   */
  lemma FeatureSets(layer: TerrainLayer, cave: real, water: real, resource: real)
    ensures var f := SelectFeature(layer, cave, water, resource);
            && f != Tunnel
            && (layer == Surface ==> f == Cave || f == None)
            && (layer == Dirt ==> f != ResourceVein)
            && (layer == Stone ==> f != WaterPocket)
            && (layer == Bedrock ==> f == ResourceVein || f == None)
  {
  }

  /** The cave test comes first: once the cave sample makes a cave, the other samples do not matter. */
  lemma CaveFirst(layer: TerrainLayer, cave: real, water: real, resource: real, water': real, resource': real)
    requires SelectFeature(layer, cave, water, resource) == Cave
    ensures SelectFeature(layer, cave, water', resource') == Cave
  {
  }

  /** A cave sample that makes a cave in one layer makes one in every deeper layer above bedrock. */
  lemma CaveDeepens(l1: TerrainLayer, l2: TerrainLayer, cave: real, water: real, resource: real)
    requires Depth(l1) <= Depth(l2) && l2 != Bedrock
    requires SelectFeature(l1, cave, water, resource) == Cave
    ensures SelectFeature(l2, cave, water, resource) == Cave
  {
  }

  /** Bedrock ignores the cave and water samples. */
  lemma BedrockIgnoresCaves(cave: real, water: real, cave': real, water': real, resource: real)
    ensures SelectFeature(Bedrock, cave, water, resource) == SelectFeature(Bedrock, cave', water', resource)
  {
  }

  // ---------------------------------------------------------------------------
  // The chunk

  /** `position * CHUNK_SIZE + offset` along one axis, as the float the noise is sampled at. */
  function WorldCoord(chunk: i32, offset: int): real
  {
    (chunk as int * CHUNK_SIZE + offset) as real
  }

  /** The feature of cell `cell` of the chunk at `position`. */
  function FeatureAt(noise: (real, real) -> real, position: IVec2, layer: TerrainLayer, cell: IVec2): TerrainFeature
  {
    var wx := WorldCoord(position.x, cell.x as int);
    var wy := WorldCoord(position.y, cell.y as int);
    SelectFeature(layer,
                  noise(wx * 0.05, wy * 0.05),
                  noise(wx * 0.03 + 100.0, wy * 0.03 + 100.0),
                  noise(wx * 0.02 + 200.0, wy * 0.02 + 200.0))
  }

  /** A cell offset inside a chunk. */
  predicate InChunk(c: IVec2)
  {
    0 <= c.x < 32 && 0 <= c.y < 32
  }

  /** `a` comes before `b` when cells are visited x first, then y. */
  predicate Before(a: IVec2, b: IVec2)
  {
    a.x < b.x || (a.x == b.x && a.y < b.y)
  }

  /** The scan has reached row `x`, column `y`; `(32, 0)` is the end. */
  predicate ScanPoint(x: int, y: int)
  {
    0 <= x <= 32 && 0 <= y <= 32 && (x == 32 ==> y == 0)
  }

  /** Cell `c` is visited before the scan reaches `(x, y)`. */
  predicate ScannedBefore(c: IVec2, x: int, y: int)
  {
    c.x as int < x || (c.x as int == x && c.y as int < y)
  }

  function Cell(x: int, y: int): IVec2
    requires 0 <= x < 32 && 0 <= y < 32
  {
    IVec2(x as i32, y as i32)
  }

  /** The feature list once the nested scan has reached `(x, y)`. */
  function FeatureScan(noise: (real, real) -> real, position: IVec2, layer: TerrainLayer, x: int, y: int)
    : seq<(IVec2, TerrainFeature)>
    requires ScanPoint(x, y)
    decreases x, y
  {
    if y == 0 then
      if x == 0 then [] else FeatureScan(noise, position, layer, x - 1, 32)
    else
      var fs := FeatureScan(noise, position, layer, x, y - 1);
      var c := Cell(x, y - 1);
      var f := FeatureAt(noise, position, layer, c);
      if f != None then fs + [(c, f)] else fs
  }

  /**
   * Every listed feature is a cell of the chunk already visited, with the
   * kind the noise gives it, and never `None`.
   */
  lemma {:induction false} FeatureScanSound(noise: (real, real) -> real, position: IVec2, layer: TerrainLayer, x: int, y: int)
    requires ScanPoint(x, y)
    ensures forall i :: 0 <= i < |FeatureScan(noise, position, layer, x, y)| ==>
              var (cell, kind) := FeatureScan(noise, position, layer, x, y)[i];
              && InChunk(cell) && ScannedBefore(cell, x, y)
              && kind != None && kind == FeatureAt(noise, position, layer, cell)
    decreases x, y
  {
    if y == 0 {
      if x > 0 {
        FeatureScanSound(noise, position, layer, x - 1, 32);
      }
    } else {
      FeatureScanSound(noise, position, layer, x, y - 1);
      ScanStep(noise, position, layer, x, y);
    }
  }

  /** One step of the scan appends at most the cell just visited. */
  lemma ScanStep(noise: (real, real) -> real, position: IVec2, layer: TerrainLayer, x: int, y: int)
    requires ScanPoint(x, y) && y > 0
    ensures var c := Cell(x, y - 1);
            var f := FeatureAt(noise, position, layer, c);
            && c.x as int == x && c.y as int == y - 1
            && FeatureScan(noise, position, layer, x, y)
               == FeatureScan(noise, position, layer, x, y - 1) + (if f != None then [(c, f)] else [])
  {
  }

  /** The features come in visiting order, so no cell is listed twice. */
  lemma {:induction false} FeatureScanSorted(noise: (real, real) -> real, position: IVec2, layer: TerrainLayer, x: int, y: int)
    requires ScanPoint(x, y)
    ensures forall i, j :: 0 <= i < j < |FeatureScan(noise, position, layer, x, y)| ==>
              Before(FeatureScan(noise, position, layer, x, y)[i].0, FeatureScan(noise, position, layer, x, y)[j].0)
    decreases x, y
  {
    if y == 0 {
      if x > 0 {
        FeatureScanSorted(noise, position, layer, x - 1, 32);
      }
    } else {
      FeatureScanSorted(noise, position, layer, x, y - 1);
      FeatureScanSound(noise, position, layer, x, y - 1);
      ScanStep(noise, position, layer, x, y);
    }
  }

  /** Every visited cell whose feature is not `None` is listed. */
  lemma {:induction false} FeatureScanComplete(noise: (real, real) -> real, position: IVec2, layer: TerrainLayer,
                                               x: int, y: int, c: IVec2)
    requires ScanPoint(x, y) && InChunk(c) && ScannedBefore(c, x, y)
    requires FeatureAt(noise, position, layer, c) != None
    ensures (c, FeatureAt(noise, position, layer, c)) in FeatureScan(noise, position, layer, x, y)
    decreases x, y
  {
    if y == 0 {
      FeatureScanComplete(noise, position, layer, x - 1, 32, c);
    } else if c != Cell(x, y - 1) {
      FeatureScanComplete(noise, position, layer, x, y - 1, c);
    }
  }

  /** `FeatureSets` for the samples one cell is given. */
  lemma FeatureAtSets(noise: (real, real) -> real, position: IVec2, layer: TerrainLayer, cell: IVec2)
    ensures var f := FeatureAt(noise, position, layer, cell);
            && f != Tunnel
            && (layer == Surface ==> f == Cave || f == None)
            && (layer == Bedrock ==> f == ResourceVein || f == None)
  {
    var wx := WorldCoord(position.x, cell.x as int);
    var wy := WorldCoord(position.y, cell.y as int);
    FeatureSets(layer, noise(wx * 0.05, wy * 0.05), noise(wx * 0.03 + 100.0, wy * 0.03 + 100.0),
                noise(wx * 0.02 + 200.0, wy * 0.02 + 200.0));
  }

  /** What `generate_chunk_data` returns for the chunk at `position`. */
  function ChunkData(noise: (real, real) -> real, position: IVec2): TerrainChunk
  {
    var layer := LayerAt(position.y as int);
    TerrainChunk(position, layer, FeatureScan(noise, position, layer, CHUNK_SIZE, 0), true)
  }

  /**
   * The chunk echoes its position, is marked generated, has the layer of its
   * row, and lists only cells of the chunk, never with `None` or `Tunnel`,
   * only caves on the surface and only veins in bedrock.
   */
  lemma ChunkDataSound(noise: (real, real) -> real, position: IVec2)
    ensures ChunkData(noise, position).position == position
    ensures ChunkData(noise, position).generated
    ensures ChunkData(noise, position).layer == LayerAt(position.y as int)
    ensures forall i :: 0 <= i < |ChunkData(noise, position).features| ==>
              var (cell, kind) := ChunkData(noise, position).features[i];
              && InChunk(cell) && kind != None && kind != Tunnel
              && (LayerAt(position.y as int) == Surface ==> kind == Cave)
              && (LayerAt(position.y as int) == Bedrock ==> kind == ResourceVein)
  {
    var layer := LayerAt(position.y as int);
    var fs := FeatureScan(noise, position, layer, CHUNK_SIZE, 0);
    FeatureScanSound(noise, position, layer, CHUNK_SIZE, 0);
    forall i | 0 <= i < |fs|
      ensures fs[i].1 != Tunnel
      ensures layer == Surface ==> fs[i].1 == Cave
      ensures layer == Bedrock ==> fs[i].1 == ResourceVein
    {
      FeatureAtSets(noise, position, layer, fs[i].0);
    }
  }

  /** The features of a chunk come x first, then y, so no cell is listed twice. */
  lemma ChunkDataSorted(noise: (real, real) -> real, position: IVec2)
    ensures forall i, j :: 0 <= i < j < |ChunkData(noise, position).features| ==>
              Before(ChunkData(noise, position).features[i].0, ChunkData(noise, position).features[j].0)
  {
    FeatureScanSorted(noise, position, LayerAt(position.y as int), CHUNK_SIZE, 0);
  }

  /** A cell of the chunk is listed, with its kind, exactly when its feature is not `None`. */
  lemma ChunkDataComplete(noise: (real, real) -> real, position: IVec2, cell: IVec2)
    requires InChunk(cell)
    ensures var c := ChunkData(noise, position);
            var f := FeatureAt(noise, position, c.layer, cell);
            f != None <==> (cell, f) in c.features
  {
    var layer := LayerAt(position.y as int);
    var fs := FeatureScan(noise, position, layer, CHUNK_SIZE, 0);
    var f := FeatureAt(noise, position, layer, cell);
    FeatureScanSound(noise, position, layer, CHUNK_SIZE, 0);
    if f != None {
      FeatureScanComplete(noise, position, layer, 32, 0, cell);
    }
  }

  // ---------------------------------------------------------------------------
  // The cache and the generator

  /**
   * `TerrainCache`: the generated chunks by position and the noise source.
   * Its seeded random generator is never drawn from and is not modelled.
   */
  class TerrainCache {
    var chunks: map<IVec2, TerrainChunk>
    const noise: (real, real) -> real

    /** `TerrainCache::default()`, with the noise of the world seed given as `noise`. */
    constructor(noise: (real, real) -> real)
      ensures chunks == map[] && this.noise == noise
    {
      chunks := map[];
      this.noise := noise;
    }
  }

  /** `generate_chunk_data`: the nested scan over the chunk's cells. */
  method GenerateChunkData(cache: TerrainCache, position: IVec2) returns (chunk: TerrainChunk)
    ensures chunk == ChunkData(cache.noise, position)
  {
    var layer := LayerAt(position.y as int);
    var features: seq<(IVec2, TerrainFeature)> := [];
    var x := 0;
    while x < CHUNK_SIZE
      invariant 0 <= x <= 32
      invariant features == FeatureScan(cache.noise, position, layer, x, 0)
    {
      var y := 0;
      while y < CHUNK_SIZE
        invariant 0 <= y <= 32
        invariant features == FeatureScan(cache.noise, position, layer, x, y)
      {
        features := VisitCell(cache, position, layer, x, y, features);
        y := y + 1;
      }
      x := x + 1;
    }
    chunk := TerrainChunk(position, layer, features, true);
  }

  /** The body of the loops of `generate_chunk_data`: sample the noise at cell `(x, y)` and record its feature, if any. */
  method VisitCell(cache: TerrainCache, position: IVec2, layer: TerrainLayer, x: int, y: int,
                   features: seq<(IVec2, TerrainFeature)>) returns (features': seq<(IVec2, TerrainFeature)>)
    requires 0 <= x < 32 && 0 <= y < 32
    requires features == FeatureScan(cache.noise, position, layer, x, y)
    ensures features' == FeatureScan(cache.noise, position, layer, x, y + 1)
  {
    var worldX := WorldCoord(position.x, x);
    var worldY := WorldCoord(position.y, y);
    var caveNoise := cache.noise(worldX * 0.05, worldY * 0.05);
    var waterNoise := cache.noise(worldX * 0.03 + 100.0, worldY * 0.03 + 100.0);
    var resourceNoise := cache.noise(worldX * 0.02 + 200.0, worldY * 0.02 + 200.0);
    var feature := SelectFeature(layer, caveNoise, waterNoise, resourceNoise);
    features' := features;
    if feature != None {
      features' := features + [(Cell(x, y), feature)];
    }
  }
}
