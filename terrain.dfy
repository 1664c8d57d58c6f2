/**
 * The tile store of the digging world (src/terrain/mod.rs): a map from a
 * tile's world position to the tile, each tile dirt (solid) or air, with the
 * initial 101 x 101 dirt fill and the air cavity carved around the origin.
 *
 * Tile positions are exact integer world positions here; the store keys each
 * tile by its own position.
 */
module Terrain {
  import opened Optional
  import opened Vectors
  import opened Collections

  const TILE_SIZE: int := 8
  /** The fill runs over tile indices -HALF_EXTENT..=HALF_EXTENT on both axes. */
  const HALF_EXTENT: int := 50
  const CAVITY_RADIUS: int := 40

  /** The two tile types; `Dirt` is the solid one. */
  datatype TileKind = Dirt | Air

  datatype Tile = Tile(position: Vec2, kind: TileKind)

  /** Every tile is stored under its own position. */
  ghost predicate WellKeyed(tiles: map<Vec2, Tile>)
  {
    forall p :: p in tiles ==> tiles[p].position == p
  }

  /** The positions that hold a solid tile. */
  function SolidKeys(tiles: map<Vec2, Tile>): set<Vec2>
  {
    set p | p in tiles && tiles[p].kind == Dirt
  }

  // ---------------------------------------------------------------------------
  // The initial fill and the cavity, as functions of the map

  /** A position of the initial fill: `(x * 8, y * 8)` for x, y in -50..=50. */
  predicate InitialCell(p: Vec2)
  {
    && p.x % TILE_SIZE == 0 && p.y % TILE_SIZE == 0
    && -HALF_EXTENT * TILE_SIZE <= p.x <= HALF_EXTENT * TILE_SIZE
    && -HALF_EXTENT * TILE_SIZE <= p.y <= HALF_EXTENT * TILE_SIZE
  }

  /** A position on the tile grid at distance at most 40 from the origin. */
  predicate InCavity(p: Vec2)
  {
    && p.x % TILE_SIZE == 0 && p.y % TILE_SIZE == 0
    && DistSq(p, ZERO) <= CAVITY_RADIUS * CAVITY_RADIUS
  }

  /**
   * Both start-up scans run over rows y = -50..=50 and, within a row, over
   * x = -50..=50: has the scan passed the position `p` on reaching (x, y)?
   */
  predicate ScannedBefore(p: Vec2, x: int, y: int)
  {
    p.y < y * TILE_SIZE || (p.y == y * TILE_SIZE && p.x < x * TILE_SIZE)
  }

  /** Where the scans stand: a column in -50..=51 of a row in -50..=50, or past the last row. */
  predicate ScanPoint(x: int, y: int)
  {
    || (-HALF_EXTENT <= x <= HALF_EXTENT + 1 && -HALF_EXTENT <= y <= HALF_EXTENT)
    || (x == -HALF_EXTENT && y == HALF_EXTENT + 1)
  }

  function CellAt(x: int, y: int): Vec2
  {
    Vec2(x * TILE_SIZE, y * TILE_SIZE)
  }

  /** The store once the fill has reached (x, y): a dirt tile added at each cell passed. */
  function FillScan(tiles: map<Vec2, Tile>, x: int, y: int): map<Vec2, Tile>
    requires ScanPoint(x, y)
    decreases y + HALF_EXTENT, x + HALF_EXTENT
  {
    if x > -HALF_EXTENT then FillScan(tiles, x - 1, y)[CellAt(x - 1, y) := Tile(CellAt(x - 1, y), Dirt)]
    else if y > -HALF_EXTENT then FillScan(tiles, HALF_EXTENT + 1, y - 1)
    else tiles
  }

  /** The store after the whole fill. */
  function Filled(tiles: map<Vec2, Tile>): map<Vec2, Tile>
  {
    FillScan(tiles, -HALF_EXTENT, HALF_EXTENT + 1)
  }

  /** The cavity scan's find at (x, y): that cell if it is within 40 of the origin. */
  function CavityHit(x: int, y: int): seq<Vec2>
  {
    if DistSq(CellAt(x, y), ZERO) <= CAVITY_RADIUS * CAVITY_RADIUS then [CellAt(x, y)] else []
  }

  /** The positions the cavity scan has collected on reaching (x, y). */
  function CavityScan(x: int, y: int): seq<Vec2>
    requires ScanPoint(x, y)
    decreases y + HALF_EXTENT, x + HALF_EXTENT
  {
    if x > -HALF_EXTENT then CavityScan(x - 1, y) + CavityHit(x - 1, y)
    else if y > -HALF_EXTENT then CavityScan(HALF_EXTENT + 1, y - 1)
    else []
  }

  /** The map once every solid tile in the cavity has become air. */
  function Carved(tiles: map<Vec2, Tile>): map<Vec2, Tile>
  {
    map p | p in tiles :: if InCavity(p) && tiles[p].kind == Dirt then tiles[p].(kind := Air) else tiles[p]
  }

  /** The solid tiles the cavity converts. */
  function CavitySolids(tiles: map<Vec2, Tile>): set<Vec2>
  {
    set p | p in SolidKeys(tiles) && InCavity(p)
  }

  /** One turn of the conversion loop: a solid tile at `p` becomes air, anything else stays. */
  function CarveAt(tiles: map<Vec2, Tile>, p: Vec2): map<Vec2, Tile>
  {
    if p in tiles && tiles[p].kind == Dirt then tiles[p := tiles[p].(kind := Air)] else tiles
  }

  /** The conversion loop over a list of positions. */
  function CarveAll(tiles: map<Vec2, Tile>, ps: seq<Vec2>): map<Vec2, Tile>
    decreases |ps|
  {
    if ps == [] then tiles else CarveAt(CarveAll(tiles, ps[..|ps| - 1]), ps[|ps| - 1])
  }

  /** The loop's `converted_count` over a list of positions. */
  function CarveCount(tiles: map<Vec2, Tile>, ps: seq<Vec2>): nat
    decreases |ps|
  {
    if ps == [] then 0
    else
      var before := CarveAll(tiles, ps[..|ps| - 1]);
      var p := ps[|ps| - 1];
      CarveCount(tiles, ps[..|ps| - 1]) + if p in before && before[p].kind == Dirt then 1 else 0
  }

  /** Some k with n == 8 * k, for a multiple n of the tile size. */
  lemma Aligned(n: int) returns (k: int)
    requires n % TILE_SIZE == 0
    ensures n == k * TILE_SIZE
  {
    k := n / TILE_SIZE;
  }

  lemma SquareBound(n: int)
    ensures Square(n) <= CAVITY_RADIUS * CAVITY_RADIUS ==> -CAVITY_RADIUS <= n <= CAVITY_RADIUS
  {
    if n > CAVITY_RADIUS {
      assert n * n >= (CAVITY_RADIUS + 1) * n;
    } else if n < -CAVITY_RADIUS {
      assert (-n) * (-n) >= (CAVITY_RADIUS + 1) * (-n);
    }
  }

  /** The cavity lies inside the fill: no cavity cell is more than 40 from the origin on either axis. */
  lemma CavityBounds(p: Vec2)
    requires InCavity(p)
    ensures -CAVITY_RADIUS <= p.x <= CAVITY_RADIUS && -CAVITY_RADIUS <= p.y <= CAVITY_RADIUS
    ensures InitialCell(p)
  {
    SquareBound(p.x);
    SquareBound(p.y);
  }

  /** Between two columns of the grid lies no aligned position. */
  lemma ScanStep(p: Vec2, x: int, y: int)
    requires p.x % TILE_SIZE == 0
    ensures ScannedBefore(p, x + 1, y) <==> ScannedBefore(p, x, y) || p == CellAt(x, y)
  {
    var k := Aligned(p.x);
  }

  /** Past the last column of a row is the start of the next, for positions of the fill. */
  lemma RowStep(p: Vec2, y: int)
    requires InitialCell(p)
    ensures ScannedBefore(p, HALF_EXTENT + 1, y) <==> ScannedBefore(p, -HALF_EXTENT, y + 1)
  {
    var k := Aligned(p.y);
  }

  /**
   * What the fill has done on reaching (x, y): a dirt tile at each fill
   * position passed, every other tile as it was.
   */
  lemma {:induction false} FillScanAt(tiles: map<Vec2, Tile>, p: Vec2, x: int, y: int)
    requires ScanPoint(x, y)
    ensures p in FillScan(tiles, x, y) <==> p in tiles || (InitialCell(p) && ScannedBefore(p, x, y))
    ensures p in FillScan(tiles, x, y) ==>
              FillScan(tiles, x, y)[p] == (if InitialCell(p) && ScannedBefore(p, x, y) then Tile(p, Dirt) else tiles[p])
    decreases y + HALF_EXTENT, x + HALF_EXTENT
  {
    if x > -HALF_EXTENT {
      FillScanAt(tiles, p, x - 1, y);
      assert InitialCell(CellAt(x - 1, y));
      if p.x % TILE_SIZE == 0 {
        ScanStep(p, x - 1, y);
      }
    } else if y > -HALF_EXTENT {
      FillScanAt(tiles, p, HALF_EXTENT + 1, y - 1);
      if InitialCell(p) {
        RowStep(p, y - 1);
      }
    }
  }

  /** On an empty store the fill adds one new tile at each of its 101 * 101 steps. */
  lemma {:induction false} FillScanCount(x: int, y: int)
    requires ScanPoint(x, y)
    ensures |FillScan(map[], x, y)| == 101 * (y + HALF_EXTENT) + (x + HALF_EXTENT)
    decreases y + HALF_EXTENT, x + HALF_EXTENT
  {
    if x > -HALF_EXTENT {
      FillScanCount(x - 1, y);
      FillScanAt(map[], CellAt(x - 1, y), x - 1, y);
    } else if y > -HALF_EXTENT {
      FillScanCount(HALF_EXTENT + 1, y - 1);
    }
  }

  /** The cavity scan on reaching (x, y) has collected exactly the cavity cells passed. */
  lemma {:induction false} CavityScanAt(p: Vec2, x: int, y: int)
    requires ScanPoint(x, y)
    ensures p in CavityScan(x, y) <==> InCavity(p) && ScannedBefore(p, x, y)
    decreases y + HALF_EXTENT, x + HALF_EXTENT
  {
    if x > -HALF_EXTENT {
      CavityScanAt(p, x - 1, y);
      CavityHitAt(p, x - 1, y);
      assert CavityScan(x, y) == CavityScan(x - 1, y) + CavityHit(x - 1, y);
    } else if y > -HALF_EXTENT {
      CavityScanAt(p, HALF_EXTENT + 1, y - 1);
      if InCavity(p) {
        CavityBounds(p);
        RowStep(p, y - 1);
      }
    } else if InCavity(p) {
      CavityBounds(p);
    }
  }

  /** The scan's find at (x, y) is the cavity cell passed on moving to (x + 1, y). */
  lemma CavityHitAt(p: Vec2, x: int, y: int)
    ensures (p in CavityHit(x, y) || (InCavity(p) && ScannedBefore(p, x, y)))
            <==> InCavity(p) && ScannedBefore(p, x + 1, y)
  {
    var c := CellAt(x, y);
    assert c.x % TILE_SIZE == 0 && c.y % TILE_SIZE == 0;
    assert InCavity(c) <==> CavityHit(x, y) == [c];
    if p.x % TILE_SIZE == 0 {
      ScanStep(p, x, y);
    }
  }

  /** The conversion loop over `ps` turns into air exactly the solid tiles listed in `ps`. */
  lemma {:induction false} CarveAllAt(tiles: map<Vec2, Tile>, ps: seq<Vec2>, p: Vec2)
    ensures p in CarveAll(tiles, ps) <==> p in tiles
    ensures p in tiles ==>
              CarveAll(tiles, ps)[p] == (if p in ps && tiles[p].kind == Dirt then tiles[p].(kind := Air) else tiles[p])
    decreases |ps|
  {
    if ps != [] {
      var init := ps[..|ps| - 1];
      assert ps == init + [ps[|ps| - 1]];
      CarveAllAt(tiles, init, p);
    }
  }

  /** The solid tiles of `tiles` listed in `ps`. */
  function ListedSolids(tiles: map<Vec2, Tile>, ps: seq<Vec2>): set<Vec2>
  {
    set p | p in ps && p in SolidKeys(tiles)
  }

  /** The loop's count is the number of distinct solid tiles it was given, however often each is listed. */
  lemma {:induction false} CarveCountIs(tiles: map<Vec2, Tile>, ps: seq<Vec2>)
    ensures CarveCount(tiles, ps) == |ListedSolids(tiles, ps)|
    decreases |ps|
  {
    if ps != [] {
      var init, p := ps[..|ps| - 1], ps[|ps| - 1];
      assert ps == init + [p];
      CarveCountIs(tiles, init);
      CarveAllAt(tiles, init, p);
      if p in SolidKeys(tiles) && p !in init {
        assert ListedSolids(tiles, ps) == ListedSolids(tiles, init) + {p};
      } else {
        assert ListedSolids(tiles, ps) == ListedSolids(tiles, init);
      }
    }
  }

  /**
   * Carving keeps every tile in place and only ever turns dirt into air:
   * the solid tiles left are those outside the cavity, and the solid count
   * drops by exactly the number of tiles converted.
   */
  lemma CarvedOnlyDigs(tiles: map<Vec2, Tile>)
    ensures Carved(tiles).Keys == tiles.Keys && |Carved(tiles)| == |tiles|
    ensures forall p :: p in tiles ==> Carved(tiles)[p].position == tiles[p].position
    ensures forall p :: p in tiles && tiles[p].kind == Air ==> Carved(tiles)[p].kind == Air
    ensures SolidKeys(Carved(tiles)) == SolidKeys(tiles) - CavitySolids(tiles)
    ensures |SolidKeys(Carved(tiles))| + |CavitySolids(tiles)| == |SolidKeys(tiles)|
    ensures WellKeyed(tiles) ==> WellKeyed(Carved(tiles))
  {
    var r := Carved(tiles);
    assert r.Keys == tiles.Keys;
    assert |r.Keys| == |tiles.Keys|;
    var rest := SolidKeys(tiles) - CavitySolids(tiles);
    assert SolidKeys(tiles) == rest + CavitySolids(tiles);
    assert rest * CavitySolids(tiles) == {};
  }

  /**
   * On an empty store, `setup_terrain` leaves a tile at exactly the 101 x 101
   * fill positions, air within 40 of the origin and dirt everywhere else.
   */
  lemma SetupTerrainShape()
    ensures forall p :: p in Carved(Filled(map[])) <==> InitialCell(p)
    ensures forall p :: p in Carved(Filled(map[])) ==>
              Carved(Filled(map[]))[p] == Tile(p, if InCavity(p) then Air else Dirt)
  {
    forall p
      ensures p in Filled(map[]) <==> InitialCell(p)
      ensures p in Filled(map[]) ==> Filled(map[])[p] == Tile(p, Dirt)
    {
      FillScanAt(map[], p, -HALF_EXTENT, HALF_EXTENT + 1);
    }
    forall p | InCavity(p)
      ensures InitialCell(p)
    {
      CavityBounds(p);
    }
  }

  // ---------------------------------------------------------------------------
  // The store

  /** `TileStore`: the tiles, keyed by position. */
  class TileStore {
    var tiles: map<Vec2, Tile>

    ghost predicate Valid()
      reads this
    {
      WellKeyed(tiles)
    }

    /** `TileStore::new()` (and its `Default`): an empty store. */
    constructor()
      ensures tiles == map[] && Valid()
    {
      tiles := map[];
    }

    /** `add_tile`: stores a tile at `position`, replacing any tile already there. */
    method AddTile(position: Vec2, kind: TileKind)
      requires Valid()
      modifies this
      ensures tiles == old(tiles)[position := Tile(position, kind)]
      ensures Valid()
      ensures |tiles| == |old(tiles)| + (if position in old(tiles) then 0 else 1)
    {
      tiles := tiles[position := Tile(position, kind)];
    }

    /** `set_tile_type`: true iff a tile exists at `position`; then only that tile's kind changes. */
    method SetTileType(position: Vec2, kind: TileKind) returns (found: bool)
      requires Valid()
      modifies this
      ensures found <==> position in old(tiles)
      ensures found ==> tiles == old(tiles)[position := old(tiles)[position].(kind := kind)]
      ensures !found ==> tiles == old(tiles)
      ensures Valid() && |tiles| == |old(tiles)|
    {
      if position in tiles {
        tiles := tiles[position := tiles[position].(kind := kind)];
        found := true;
      } else {
        found := false;
      }
    }

    /** `get_tile`: the tile stored at `position`, which sits at that very position. */
    function GetTile(position: Vec2): (r: Option<Tile>)
      reads this
      requires Valid()
      ensures r.Some? <==> position in tiles
      ensures r.Some? ==> r.value.position == position && r.value.kind == tiles[position].kind
    {
      if position in tiles then Some(tiles[position]) else None
    }

    /** `is_solid`: a dirt tile at `position`; false wherever there is no tile. */
    function IsSolid(position: Vec2): (b: bool)
      reads this
      ensures b <==> position in SolidKeys(tiles)
      ensures position !in tiles ==> !b
    {
      position in tiles && tiles[position].kind == Dirt
    }

    /** `count`: the number of tiles. */
    function Count(): nat
      reads this
    {
      |tiles|
    }

    /** `solid_count`: the number of solid tiles, never more than `count`. */
    function SolidCount(): (n: nat)
      reads this
      ensures n == |SolidKeys(tiles)|
      ensures n <= Count()
    {
      SubsetCard(SolidKeys(tiles), tiles.Keys);
      |SolidKeys(tiles)|
    }

    /**
     * `get_solid_tiles`: the position of every solid tile, each once, in the
     * map's iteration order, which the source leaves unspecified.
     */
    method GetSolidTiles() returns (r: seq<Vec2>)
      requires Valid()
      ensures Elements(r) == SolidKeys(tiles)
      ensures Distinct(r)
      ensures |r| == SolidCount()
    {
      r := [];
      var remaining := tiles.Keys;
      while remaining != {}
        invariant remaining <= tiles.Keys
        invariant Elements(r) == SolidKeys(tiles) - remaining
        invariant Distinct(r)
        decreases |remaining|
      {
        var p :| p in remaining;
        if tiles[p].kind == Dirt {
          ElementsSnoc(r, tiles[p].position);
          r := r + [tiles[p].position];
        }
        remaining := remaining - {p};
      }
      DistinctCard(r);
    }
  }

  // ---------------------------------------------------------------------------
  // Start-up

  /** `setup_terrain`: the dirt fill, row by row, then the central cavity. */
  method SetupTerrain(store: TileStore) returns (converted: nat)
    requires store.Valid()
    modifies store
    ensures store.tiles == Carved(Filled(old(store.tiles)))
    ensures converted == |CavitySolids(Filled(old(store.tiles)))|
    ensures old(store.tiles) == map[] ==> |store.tiles| == 101 * 101
    ensures store.Valid()
  {
    var y := -HALF_EXTENT;
    while y <= HALF_EXTENT
      invariant -HALF_EXTENT <= y <= HALF_EXTENT + 1
      invariant store.Valid() && store.tiles == FillScan(old(store.tiles), -HALF_EXTENT, y)
    {
      var x := -HALF_EXTENT;
      while x <= HALF_EXTENT
        invariant -HALF_EXTENT <= x <= HALF_EXTENT + 1
        invariant store.Valid() && store.tiles == FillScan(old(store.tiles), x, y)
      {
        var pos := Vec2(x * TILE_SIZE, y * TILE_SIZE);
        store.AddTile(pos, Dirt);
        x := x + 1;
      }
      y := y + 1;
    }
    if old(store.tiles) == map[] {
      FillScanCount(-HALF_EXTENT, HALF_EXTENT + 1);
    }
    CarvedOnlyDigs(store.tiles);
    converted := CreateCentralCavity(store);
  }

  /**
   * `create_central_cavity`: collects the fill positions within 40 of the
   * origin, then turns each one holding a solid tile into air. The result is
   * `converted_count`, the number of tiles converted.
   */
  method CreateCentralCavity(store: TileStore) returns (converted: nat)
    requires store.Valid()
    modifies store
    ensures store.tiles == Carved(old(store.tiles))
    ensures converted == |CavitySolids(old(store.tiles))|
    ensures store.Valid()
  {
    var positions := CavityPositions();
    converted := 0;
    var i := 0;
    while i < |positions|
      invariant 0 <= i <= |positions|
      invariant store.tiles == CarveAll(old(store.tiles), positions[..i])
      invariant converted == CarveCount(old(store.tiles), positions[..i])
    {
      var pos := positions[i];
      assert positions[..i + 1][..i] == positions[..i];
      if pos in store.tiles {
        var tile := store.tiles[pos];
        if tile.kind == Dirt {
          store.tiles := store.tiles[pos := tile.(kind := Air)];
          converted := converted + 1;
        }
      }
      i := i + 1;
    }
    assert positions[..i] == positions;
    CarvedByScan(old(store.tiles), positions);
  }

  /** The conversion loop over the cavity positions carves the cavity, and counts its solid tiles. */
  lemma CarvedByScan(tiles: map<Vec2, Tile>, positions: seq<Vec2>)
    requires forall p :: p in positions <==> InCavity(p)
    ensures CarveAll(tiles, positions) == Carved(tiles)
    ensures CarveCount(tiles, positions) == |CavitySolids(tiles)|
    ensures WellKeyed(tiles) ==> WellKeyed(Carved(tiles))
  {
    forall p
      ensures p in CarveAll(tiles, positions) <==> p in Carved(tiles)
      ensures p in Carved(tiles) ==> CarveAll(tiles, positions)[p] == Carved(tiles)[p]
    {
      CarveAllAt(tiles, positions, p);
    }
    CarveCountIs(tiles, positions);
    assert ListedSolids(tiles, positions) == CavitySolids(tiles);
    CarvedOnlyDigs(tiles);
  }

  /** The first loop of `create_central_cavity`: the fill positions within 40 of the origin. */
  method CavityPositions() returns (positions: seq<Vec2>)
    ensures forall p :: p in positions <==> InCavity(p)
  {
    positions := [];
    var y := -HALF_EXTENT;
    while y <= HALF_EXTENT
      invariant -HALF_EXTENT <= y <= HALF_EXTENT + 1
      invariant positions == CavityScan(-HALF_EXTENT, y)
    {
      var x := -HALF_EXTENT;
      while x <= HALF_EXTENT
        invariant -HALF_EXTENT <= x <= HALF_EXTENT + 1
        invariant positions == CavityScan(x, y)
      {
        var pos := Vec2(x * TILE_SIZE, y * TILE_SIZE);
        if DistSq(pos, ZERO) <= CAVITY_RADIUS * CAVITY_RADIUS {
          positions := positions + [pos];
        }
        x := x + 1;
      }
      y := y + 1;
    }
    forall p
      ensures p in positions <==> InCavity(p)
    {
      CavityScanAt(p, -HALF_EXTENT, HALF_EXTENT + 1);
      if InCavity(p) {
        CavityBounds(p);
      }
    }
  }
}
