/**
 * The worker ant's systems (src/ant/systems.rs, and the same tick again in
 * src/ant/systems/ant_movement.rs): the mouse click that hands every ant a
 * new target, and the per-frame movement tick that walks, plans and digs.
 *
 * `Tick` is the specification of one ant's turn as a function of its state,
 * its position, its velocity, its colony's position and the tile map;
 * `StepAnt` is the same turn on an `Ant` and the `TileStore`, proved equal to
 * it, and `AntMovement` runs it over all ants in query order.
 *
 * Positions are integer world positions and every float distance test is
 * the same test on squared distances.
 */
module AntSystems {
  import opened Optional
  import opened Vectors
  import opened Collections
  import opened Pathfinding
  import opened Terrain
  import opened Components

  /** `velocity.linvel`: the direction `heading` scaled to length `speed`. */
  datatype Velocity = Velocity(heading: Vec2, speed: nat)

  /** `Vec2::ZERO` as a velocity. */
  const STOPPED: Velocity := Velocity(ZERO, 0)
  /** `ANT_SPEED * 0.5` while digging, `ANT_SPEED * 1.5` when pushing off. */
  const DIG_SPEED: nat := 50
  const BURST_SPEED: nat := 150

  /** `linvel.length() < 10.0`. */
  predicate Slow(v: Velocity)
  {
    v.heading == ZERO || v.speed < 10
  }

  /** `distance_to_target < 5.0`, squared. */
  const ARRIVAL_DIST_SQ: int := 25
  /** `distance < 2.0` to a waypoint, squared. */
  const WAYPOINT_DIST_SQ: int := 4

  /** `(colony.position - current_pos).length() > MAX_COLONY_DISTANCE`. */
  predicate TooFarFromColony(home: Vec2, pos: Vec2)
  {
    DistSq(home, pos) > MAX_COLONY_DISTANCE * MAX_COLONY_DISTANCE
  }

  /** `current_pos.distance(dig_target) < TILE_SIZE`. */
  predicate ReachedDigSite(pos: Vec2, site: Vec2)
  {
    DistSq(pos, site) < TILE_SIZE * TILE_SIZE
  }

  /**
   * `GridPos::from_vec2(current_pos + (dig_target - current_pos).normalize() * TILE_SIZE)`:
   * the cell a digging ant works on, computed exactly on each axis by `DigIndex`.
   * On the site itself `normalize` yields NaN, which rounds and casts to 0; the
   * tick never digs there, because it has reached the site first.
   */
  function DigGrid(pos: Vec2, site: Vec2): GridPos
  {
    var t := Sub(site, pos);
    var n := LengthSq(t);
    if n == 0 then GridPos(0, 0)
    else GridPos(DigIndex(pos.x, t.x, n), DigIndex(pos.y, t.y, n))
  }

  /** `grid_pos.to_vec2()`: the key of the tile a digging ant works on. */
  function DigCell(pos: Vec2, site: Vec2): Vec2
  {
    ToVec2(DigGrid(pos, site))
  }

  /** The lower edge of cell `c` along one axis: its centre less half a cell. */
  function CellEdge(c: int): int
  {
    GRID_SIZE * c - GRID_SIZE / 2
  }

  /**
   * The point `p + TILE_SIZE * t / sqrt(n)` lies within half a cell of the centre
   * of cell `c`, and an exact half rounds away from zero (as `f32::round`).
   */
  predicate RoundsToCell(p: int, t: int, n: nat, c: int)
  {
    && RootScaledAtMost(CellEdge(c) - p, n, TILE_SIZE * t)
    && !RootScaledBelow(CellEdge(c + 1) - p, n, TILE_SIZE * t)
    && (RootScaledEqual(CellEdge(c) - p, n, TILE_SIZE * t) ==> CellEdge(c) > 0)
    && (RootScaledEqual(CellEdge(c + 1) - p, n, TILE_SIZE * t) ==> CellEdge(c + 1) < 0)
  }

  /**
   * Along one axis, the cell index of one tile length from the ant toward the
   * site: `p` is the ant's coordinate, `t` that axis's component of
   * `dig_target - current_pos` and `n` the vector's squared length.
   */
  function DigIndex(p: int, t: int, n: nat): (c: int)
    requires 0 < n && t * t <= n
    ensures RoundsToCell(p, t, n, c)
  {
    var top := (p + 12) / GRID_SIZE;
    RootScaledFar(CellEdge(top + 1) - p, n, t);
    var c := LastCellBelow(p, t, n, top);
    if RootScaledEqual(CellEdge(c) - p, n, TILE_SIZE * t) && CellEdge(c) < 0 then
      RootScaledMono(CellEdge(c - 1) - p, CellEdge(c) - p, n, TILE_SIZE * t);
      c - 1
    else c
  }

  /**
   * The last cell at or below `c` whose lower edge lies at or below
   * `p + TILE_SIZE * t / sqrt(n)`, given that the edge of `c + 1` lies above it.
   */
  function LastCellBelow(p: int, t: int, n: nat, c: int): (r: int)
    requires 0 < n && t * t <= n
    requires (p - 4) / GRID_SIZE <= c
    requires !RootScaledAtMost(CellEdge(c + 1) - p, n, TILE_SIZE * t)
    ensures r <= c
    ensures RootScaledAtMost(CellEdge(r) - p, n, TILE_SIZE * t)
    ensures !RootScaledAtMost(CellEdge(r + 1) - p, n, TILE_SIZE * t)
    decreases c - (p - 4) / GRID_SIZE
  {
    if RootScaledAtMost(CellEdge(c) - p, n, TILE_SIZE * t) then c
    else
      RootScaledFar(CellEdge((p - 4) / GRID_SIZE) - p, n, t);
      LastCellBelow(p, t, n, c - 1)
  }

  /** With `t * t <= n`, a factor beyond one tile length outweighs `TILE_SIZE * t`, and one of exactly a tile matches it. */
  lemma {:induction false} RootScaledFar(a: int, n: nat, t: int)
    requires 0 < n && t * t <= n
    ensures a < -TILE_SIZE || TILE_SIZE < a ==> a * a * n > (TILE_SIZE * t) * (TILE_SIZE * t)
    ensures a <= -TILE_SIZE ==> a * a * n >= (TILE_SIZE * t) * (TILE_SIZE * t)
  {
    var k := Abs(a);
    assert k * k == a * a;
    assert (TILE_SIZE * t) * (TILE_SIZE * t) == 64 * (t * t);
    assert 64 * (t * t) <= 64 * n;
    if k > TILE_SIZE {
      SquareLess(TILE_SIZE, k);
      MulRight(64, k * k, n);
    } else if k == TILE_SIZE {
      assert a * a * n == 64 * n;
    }
  }

  /** Two cells at most one apart on both axes. */
  predicate Touching(a: GridPos, b: GridPos)
  {
    Abs(a.x - b.x) <= 1 && Abs(a.y - b.y) <= 1
  }

  /** `needs_digging`: some solid tile's cell touches the waypoint's cell. */
  predicate NeedsDigging(solids: set<Vec2>, waypoint: Vec2)
  {
    exists p :: p in solids && Touching(FromVec2(p), FromVec2(waypoint))
  }

  /** What a tick leaves behind: the ant's state, its velocity, and the tiles. */
  datatype TickResult = TickResult(state: AntState, velocity: Velocity, tiles: map<Vec2, Tile>)

  // ---------------------------------------------------------------------------
  // The tick, as a function

  /** One ant's turn of `ant_movement`. */
  function Tick(s: AntState, pos: Vec2, vel: Velocity, home: Option<Vec2>, tiles: map<Vec2, Tile>): TickResult
  {
    if s.target.None? then TickResult(s, STOPPED, tiles)
    else if home.Some? && TooFarFromColony(home.value, pos) then TickResult(s.(target := home), vel, tiles)
    else if s.mode.Digging? then DigTick(s, pos, vel, tiles)
    else if DistSq(s.target.value, pos) < ARRIVAL_DIST_SQ then
      TickResult(s.(target := None, path := None, index := 0), STOPPED, tiles)
    else if s.path.None? || s.index >= |s.path.value| then Replan(s, pos, vel, tiles)
    else FollowPath(s, pos, vel, tiles)
  }

  /** The `Digging` branch: step back to searching at the site, else dig or walk toward it. */
  function DigTick(s: AntState, pos: Vec2, vel: Velocity, tiles: map<Vec2, Tile>): TickResult
    requires s.mode.Digging?
  {
    var site := s.mode.site;
    if ReachedDigSite(pos, site) then
      var index := if s.path.Some? && s.index < |s.path.value| then s.index + 1 else s.index;
      TickResult(s.(mode := SearchingForDigSite, index := index), STOPPED, tiles)
    else
      var key := DigCell(pos, site);
      if key !in tiles then TickResult(s, vel, tiles)
      else if tiles[key].kind == Dirt then
        TickResult(s, Velocity(Sub(site, pos), DIG_SPEED), tiles[key := tiles[key].(kind := Air)])
      else TickResult(s, Velocity(Sub(site, pos), ANT_SPEED), tiles)
  }

  /**
   * The path computation of the recompute branch: aim for the nearest
   * accessible point to the target and plan a path there, caching it with
   * the cursor at its start; give up on the target when either search fails.
   */
  function Replanned(s: AntState, pos: Vec2, tiles: map<Vec2, Tile>): (r: AntState)
    requires s.target.Some?
    ensures r.target.Some? ==> r.path.Some?
  {
    var solids := SolidKeys(tiles);
    match NearestAccessiblePoint(pos, s.target.value, solids, SEARCH_FUEL)
    case None => s.(target := None)
    case Some(accessible) =>
      match PlanPath(pos, accessible, solids, SEARCH_FUEL)
      case None => s.(target := None)
      case Some(path) => s.(path := Some(path), index := 0)
  }

  /** `Replanned` by the outcome of the two searches; the nearest-point search always finds a point. */
  lemma ReplannedCases(s: AntState, pos: Vec2, tiles: map<Vec2, Tile>)
    requires s.target.Some?
    ensures var solids := SolidKeys(tiles);
            var accessible := NearestAccessiblePoint(pos, s.target.value, solids, SEARCH_FUEL);
            && accessible.Some?
            && (PlanPath(pos, accessible.value, solids, SEARCH_FUEL).None? ==> Replanned(s, pos, tiles) == s.(target := None))
            && (PlanPath(pos, accessible.value, solids, SEARCH_FUEL).Some? ==>
                  Replanned(s, pos, tiles) == s.(path := PlanPath(pos, accessible.value, solids, SEARCH_FUEL), index := 0))
  {
  }

  /** The recompute branch: replan, then stop if the target was dropped or follow the new path. */
  function Replan(s: AntState, pos: Vec2, vel: Velocity, tiles: map<Vec2, Tile>): TickResult
    requires s.target.Some?
  {
    var planned := Replanned(s, pos, tiles);
    if planned.target.None? then TickResult(planned, STOPPED, tiles)
    else FollowPath(planned, pos, vel, tiles)
  }

  /** The path-following branch. */
  function FollowPath(s: AntState, pos: Vec2, vel: Velocity, tiles: map<Vec2, Tile>): TickResult
    requires s.path.Some?
  {
    var path := s.path.value;
    if s.index < |path| then
      var waypoint := path[s.index];
      if NeedsDigging(SolidKeys(tiles), waypoint) then TickResult(s.(mode := Digging(waypoint)), STOPPED, tiles)
      else if DistSq(waypoint, pos) < WAYPOINT_DIST_SQ then
        TickResult(s.(index := s.index + 1), if s.index + 1 >= |path| then STOPPED else vel, tiles)
      else TickResult(s, Velocity(Sub(waypoint, pos), if Slow(vel) then BURST_SPEED else ANT_SPEED), tiles)
    else TickResult(s.(target := None, path := None, index := 0), STOPPED, tiles)
  }

  /** The state `handle_mouse_click` gives every ant: searching toward `target`, with no path. */
  function Assigned(target: Vec2): AntState
  {
    AntState(SearchingForDigSite, Some(target), None, 0)
  }

  // ---------------------------------------------------------------------------
  // What a tick does

  /**
   * Following a path leaves the tiles alone. Short of the path's end it keeps
   * target and path and moves the cursor by at most one; past it, it drops
   * target, path and cursor.
   */
  lemma FollowPathFacts(s: AntState, pos: Vec2, vel: Velocity, tiles: map<Vec2, Tile>)
    requires s.path.Some?
    ensures var r := FollowPath(s, pos, vel, tiles);
            && r.tiles == tiles
            && (s.index < |s.path.value| ==>
                  && r.state.path == s.path && r.state.target == s.target
                  && (r.state.index == s.index || r.state.index == s.index + 1))
            && (s.index >= |s.path.value| ==> r.state == s.(target := None, path := None, index := 0))
  {
  }

  /**
   * Replanning leaves the tiles alone. The nearest-point search always finds
   * a point; when no path leads there the target is dropped, and otherwise
   * the path to that point is cached and followed from its start.
   */
  lemma ReplanFacts(s: AntState, pos: Vec2, vel: Velocity, tiles: map<Vec2, Tile>)
    requires s.target.Some?
    ensures var r := Replan(s, pos, vel, tiles);
            var solids := SolidKeys(tiles);
            var accessible := NearestAccessiblePoint(pos, s.target.value, solids, SEARCH_FUEL);
            && accessible.Some?
            && r.tiles == tiles
            && (PlanPath(pos, accessible.value, solids, SEARCH_FUEL).None? ==>
                  r.state == s.(target := None) && r.velocity == STOPPED)
            && (PlanPath(pos, accessible.value, solids, SEARCH_FUEL).Some? ==>
                  && r.state.path == PlanPath(pos, accessible.value, solids, SEARCH_FUEL)
                  && r.state.target == s.target
                  && r.state.index <= 1
                  && |r.state.path.value| >= 2
                  && r.state.path.value[0] == pos)
  {
    var solids := SolidKeys(tiles);
    var accessible := NearestAccessiblePoint(pos, s.target.value, solids, SEARCH_FUEL);
    assert accessible.Some?;
    var planned := PlanPath(pos, accessible.value, solids, SEARCH_FUEL);
    if planned.Some? {
      var s' := s.(path := planned, index := 0);
      assert Replanned(s, pos, tiles) == s';
      FollowPathFacts(s', pos, vel, tiles);
    }
  }

  /** An ant without a target only has its velocity zeroed. */
  lemma TickIdle(s: AntState, pos: Vec2, vel: Velocity, home: Option<Vec2>, tiles: map<Vec2, Tile>)
    requires s.target.None?
    ensures Tick(s, pos, vel, home, tiles) == TickResult(s, STOPPED, tiles)
  {
  }

  /**
   * The colony guard comes first: an ant too far from its colony turns back
   * to it, whatever its mode, and nothing else changes that tick.
   */
  lemma TickColonyGuard(s: AntState, pos: Vec2, vel: Velocity, home: Vec2, tiles: map<Vec2, Tile>)
    requires s.target.Some? && TooFarFromColony(home, pos)
    ensures Tick(s, pos, vel, Some(home), tiles) == TickResult(s.(target := Some(home)), vel, tiles)
  {
  }

  /**
   * A digging ant within a tile of its site goes back to searching and moves
   * its cursor on by one if the path has a waypoint left; nothing else changes.
   */
  lemma TickDigReached(s: AntState, pos: Vec2, vel: Velocity, home: Option<Vec2>, tiles: map<Vec2, Tile>)
    requires s.target.Some? && !(home.Some? && TooFarFromColony(home.value, pos))
    requires s.mode.Digging? && ReachedDigSite(pos, s.mode.site)
    ensures var r := Tick(s, pos, vel, home, tiles);
            && r.state.mode == SearchingForDigSite
            && r.state.target == s.target && r.state.path == s.path
            && (r.state.index == s.index + 1 <==> s.path.Some? && s.index < |s.path.value|)
            && (r.state.index == s.index || r.state.index == s.index + 1)
            && r.velocity == STOPPED && r.tiles == tiles
  {
  }

  /**
   * The digging branch runs before the arrival test, so a digging ant keeps
   * its target and its path, however close it is.
   */
  lemma TickDiggingKeepsTarget(s: AntState, pos: Vec2, vel: Velocity, home: Option<Vec2>, tiles: map<Vec2, Tile>)
    requires s.target.Some? && !(home.Some? && TooFarFromColony(home.value, pos))
    requires s.mode.Digging?
    ensures Tick(s, pos, vel, home, tiles).state.target == s.target
    ensures Tick(s, pos, vel, home, tiles).state.path == s.path
  {
  }

  /**
   * A tick changes at most one tile, the one a tile length toward the dig
   * site, and only from dirt to air; the set of tiles stays the same.
   */
  lemma TickDigsAtMostOneTile(s: AntState, pos: Vec2, vel: Velocity, home: Option<Vec2>, tiles: map<Vec2, Tile>)
    ensures var r := Tick(s, pos, vel, home, tiles);
            || r.tiles == tiles
            || (&& s.mode.Digging?
                && !ReachedDigSite(pos, s.mode.site)
                && DigCell(pos, s.mode.site) in SolidKeys(tiles)
                && r.tiles == tiles[DigCell(pos, s.mode.site) := tiles[DigCell(pos, s.mode.site)].(kind := Air)])
  {
    if s.target.Some? && !(home.Some? && TooFarFromColony(home.value, pos)) && !s.mode.Digging?
       && DistSq(s.target.value, pos) >= ARRIVAL_DIST_SQ
    {
      if s.path.None? || s.index >= |s.path.value| {
        assert Tick(s, pos, vel, home, tiles) == Replan(s, pos, vel, tiles);
        ReplanFacts(s, pos, vel, tiles);
      } else {
        assert Tick(s, pos, vel, home, tiles) == FollowPath(s, pos, vel, tiles);
        FollowPathFacts(s, pos, vel, tiles);
      }
    }
  }

  /** Tiles never turn solid, never move, and are never added or removed. */
  lemma {:induction false} TickOnlyDigs(s: AntState, pos: Vec2, vel: Velocity, home: Option<Vec2>, tiles: map<Vec2, Tile>)
    ensures var r := Tick(s, pos, vel, home, tiles);
            && r.tiles.Keys == tiles.Keys && |r.tiles| == |tiles|
            && (forall p :: p in tiles ==> r.tiles[p].position == tiles[p].position)
            && SolidKeys(r.tiles) <= SolidKeys(tiles)
            && (WellKeyed(tiles) ==> WellKeyed(r.tiles))
  {
    TickDigsAtMostOneTile(s, pos, vel, home, tiles);
  }

  /**
   * Arrival: an ant that is not digging and is within 5 of its target drops
   * target, path and cursor and stops; the next tick, whatever the position,
   * only zeroes its velocity again.
   */
  lemma TickArrival(s: AntState, pos: Vec2, vel: Velocity, home: Option<Vec2>, tiles: map<Vec2, Tile>,
                    pos': Vec2, vel': Velocity, home': Option<Vec2>)
    requires s.target.Some? && !(home.Some? && TooFarFromColony(home.value, pos))
    requires !s.mode.Digging? && DistSq(s.target.value, pos) < ARRIVAL_DIST_SQ
    ensures var r := Tick(s, pos, vel, home, tiles);
            && r == TickResult(s.(target := None, path := None, index := 0), STOPPED, tiles)
            && Tick(r.state, pos', vel', home', r.tiles) == TickResult(r.state, STOPPED, r.tiles)
  {
  }

  /**
   * With no path, or the path used up, the tick plans afresh: toward the
   * nearest accessible point to the target, not the target itself. When
   * either search fails the target is dropped; otherwise the new path is
   * cached and following starts from its first waypoint.
   */
  lemma {:induction false} TickReplan(s: AntState, pos: Vec2, vel: Velocity, home: Option<Vec2>, tiles: map<Vec2, Tile>)
    requires s.target.Some? && !(home.Some? && TooFarFromColony(home.value, pos))
    requires !s.mode.Digging? && DistSq(s.target.value, pos) >= ARRIVAL_DIST_SQ
    requires s.path.None? || s.index >= |s.path.value|
    ensures var r := Tick(s, pos, vel, home, tiles);
            var solids := SolidKeys(tiles);
            var accessible := NearestAccessiblePoint(pos, s.target.value, solids, SEARCH_FUEL);
            && r.tiles == tiles && accessible.Some?
            && (PlanPath(pos, accessible.value, solids, SEARCH_FUEL).None? ==>
                  r.state == s.(target := None) && r.velocity == STOPPED)
            && (PlanPath(pos, accessible.value, solids, SEARCH_FUEL).Some? ==>
                  && r.state.path == PlanPath(pos, accessible.value, solids, SEARCH_FUEL)
                  && r.state.target == s.target
                  && r.state.index <= 1
                  && |r.state.path.value| >= 2
                  && r.state.path.value[0] == pos)
  {
    assert Tick(s, pos, vel, home, tiles) == Replan(s, pos, vel, tiles);
    ReplanFacts(s, pos, vel, tiles);
  }

  /**
   * Following a path: when solid ground touches the next waypoint's cell the
   * ant starts digging there with its cursor where it was; otherwise, within
   * 2 of the waypoint, the cursor moves on by exactly one.
   */
  lemma TickFollow(s: AntState, pos: Vec2, vel: Velocity, home: Option<Vec2>, tiles: map<Vec2, Tile>)
    requires s.target.Some? && !(home.Some? && TooFarFromColony(home.value, pos))
    requires !s.mode.Digging? && DistSq(s.target.value, pos) >= ARRIVAL_DIST_SQ
    requires s.path.Some? && s.index < |s.path.value|
    ensures var r := Tick(s, pos, vel, home, tiles);
            var waypoint := s.path.value[s.index];
            && r.tiles == tiles && r.state.path == s.path && r.state.target == s.target
            && (NeedsDigging(SolidKeys(tiles), waypoint) ==>
                  r.state == s.(mode := Digging(waypoint)) && r.velocity == STOPPED)
            && (!NeedsDigging(SolidKeys(tiles), waypoint) && DistSq(waypoint, pos) < WAYPOINT_DIST_SQ ==>
                  r.state == s.(index := s.index + 1))
            && (!NeedsDigging(SolidKeys(tiles), waypoint) && DistSq(waypoint, pos) >= WAYPOINT_DIST_SQ ==>
                  r.state == s && r.velocity.heading == Sub(waypoint, pos))
  {
    assert Tick(s, pos, vel, home, tiles) == FollowPath(s, pos, vel, tiles);
  }

  /** Whenever a path is cached, the cursor is at most its length, after every tick. */
  lemma {:induction false} TickKeepsCursor(s: AntState, pos: Vec2, vel: Velocity, home: Option<Vec2>, tiles: map<Vec2, Tile>)
    requires CursorInBounds(s)
    ensures CursorInBounds(Tick(s, pos, vel, home, tiles).state)
  {
    if s.target.Some? && !(home.Some? && TooFarFromColony(home.value, pos)) && !s.mode.Digging?
       && DistSq(s.target.value, pos) >= ARRIVAL_DIST_SQ
    {
      if s.path.None? || s.index >= |s.path.value| {
        assert Tick(s, pos, vel, home, tiles) == Replan(s, pos, vel, tiles);
        ReplanFacts(s, pos, vel, tiles);
      } else {
        assert Tick(s, pos, vel, home, tiles) == FollowPath(s, pos, vel, tiles);
        FollowPathFacts(s, pos, vel, tiles);
      }
    }
  }

  /**
   * After a click, an ant that is not turned back by its colony and is not
   * already at the click plans its next path from scratch.
   */
  lemma ClickThenTick(target: Vec2, pos: Vec2, vel: Velocity, home: Option<Vec2>, tiles: map<Vec2, Tile>)
    requires !(home.Some? && TooFarFromColony(home.value, pos)) && DistSq(target, pos) >= ARRIVAL_DIST_SQ
    ensures CursorInBounds(Assigned(target))
    ensures var r := Tick(Assigned(target), pos, vel, home, tiles);
            var solids := SolidKeys(tiles);
            var accessible := NearestAccessiblePoint(pos, target, solids, SEARCH_FUEL);
            || r.state.target.None?
            || (accessible.Some? && r.state.path == PlanPath(pos, accessible.value, solids, SEARCH_FUEL))
  {
    TickReplan(Assigned(target), pos, vel, home, tiles);
  }

  /** Only one cell satisfies `RoundsToCell`, so `DigIndex` is determined by its contract. */
  lemma {:induction false} RoundsToCellUnique(p: int, t: int, n: nat, c: int)
    requires 0 < n && t * t <= n
    ensures RoundsToCell(p, t, n, c) <==> c == DigIndex(p, t, n)
  {
    var d := DigIndex(p, t, n);
    if RoundsToCell(p, t, n, c) && c != d {
      var lo, hi := if c < d then c else d, if c < d then d else c;
      assert RoundsToCell(p, t, n, lo) && RoundsToCell(p, t, n, hi);
      if hi > lo + 1 {
        RootScaledMono(CellEdge(lo + 1) - p, CellEdge(hi) - p, n, TILE_SIZE * t);
      }
      assert false;
    }
  }

  /** The centre of the dig cell lies within one and a half tile lengths of the ant on each axis. */
  lemma {:induction false} DigIndexNear(p: int, t: int, n: nat)
    requires 0 < n && t * t <= n
    ensures Abs(GRID_SIZE * DigIndex(p, t, n) - p) <= TILE_SIZE + GRID_SIZE / 2
  {
    var c := DigIndex(p, t, n);
    RootScaledFar(CellEdge(c) - p, n, t);
    RootScaledFar(CellEdge(c + 1) - p, n, t);
  }

  /** With no offset along an axis, the ant digs in its own cell on that axis. */
  lemma {:induction false} DigIndexStill(p: int, n: nat)
    requires 0 < n
    ensures DigIndex(p, 0, n) == CellIndex(p)
  {
    var c := CellIndex(p);
    RootScaledZero(CellEdge(c) - p, n);
    RootScaledZero(CellEdge(c + 1) - p, n);
    RoundsToCellUnique(p, 0, n, c);
  }

  /** Straight along an axis the ant digs the cell of the point one tile length ahead. */
  lemma {:induction false} DigIndexAxis(p: int, d: int)
    requires d != 0
    ensures DigIndex(p, d, d * d) == CellIndex(p + (if d > 0 then TILE_SIZE else -TILE_SIZE))
  {
    var s: int := if d > 0 then 1 else -1;
    var m := Abs(d);
    assert d == s * m && d * d == m * m;
    var c := CellIndex(p + TILE_SIZE * s);
    AxisRoundsToCell(p, s, m, c);
    RoundsToCellUnique(p, d, m * m, c);
  }

  /** The cell of `p + TILE_SIZE * s` is where the exact test rounds `p + TILE_SIZE * (s * m) / m`. */
  lemma {:induction false} AxisRoundsToCell(p: int, s: int, m: nat, c: int)
    requires (s == 1 || s == -1) && 0 < m && c == CellIndex(p + TILE_SIZE * s)
    ensures RoundsToCell(p, s * m, m * m, c)
  {
    AxisEdge(CellEdge(c) - p, s, m);
    AxisEdge(CellEdge(c + 1) - p, s, m);
  }

  /** Against `TILE_SIZE * (s * m)` with root `m`, the tests compare `a` with `TILE_SIZE * s`. */
  lemma {:induction false} AxisEdge(a: int, s: int, m: nat)
    requires 0 < m
    ensures RootScaledBelow(a, m * m, TILE_SIZE * (s * m)) <==> a < TILE_SIZE * s
    ensures RootScaledEqual(a, m * m, TILE_SIZE * (s * m)) <==> a == TILE_SIZE * s
  {
    assert TILE_SIZE * (s * m) == (TILE_SIZE * s) * m;
    RootScaledExact(a, m, TILE_SIZE * (s * m));
    ScaleCompare(a, TILE_SIZE * s, m);
  }

  /**
   * Digging from (0, 0) toward (9, 18): the point one tile ahead is about
   * (3.58, 7.16), in cell (0, 1).
   */
  lemma DigGridExample()
    ensures DigGrid(Vec2(0, 0), Vec2(9, 18)) == GridPos(0, 1)
  {
    RoundsToCellUnique(0, 9, 405, 0);
    RoundsToCellUnique(0, 18, 405, 1);
  }

  // ---------------------------------------------------------------------------
  // The system over all ants

  datatype PassResult = PassResult(states: seq<AntState>, velocities: seq<Velocity>, tiles: map<Vec2, Tile>)

  /**
   * `ant_movement` over the first `n` ants of the query: every ant's tick in
   * query order, each seeing the tiles its predecessors dug.
   */
  function MovementPass(states: seq<AntState>, positions: seq<Vec2>, vels: seq<Velocity>,
                        homes: seq<Option<Vec2>>, tiles: map<Vec2, Tile>, n: nat): (r: PassResult)
    requires |positions| == |states| && |vels| == |states| && |homes| == |states| && n <= |states|
    ensures |r.states| == n && |r.velocities| == n
  {
    if n == 0 then PassResult([], [], tiles)
    else
      var before := MovementPass(states, positions, vels, homes, tiles, n - 1);
      var t := Tick(states[n - 1], positions[n - 1], vels[n - 1], homes[n - 1], before.tiles);
      PassResult(before.states + [t.state], before.velocities + [t.velocity], t.tiles)
  }

  /**
   * Over a pass every cursor stays in bounds, and the tiles only go from dirt
   * to air, all staying where they were.
   */
  lemma {:induction false} PassKeepsInvariants(states: seq<AntState>, positions: seq<Vec2>, vels: seq<Velocity>,
                                               homes: seq<Option<Vec2>>, tiles: map<Vec2, Tile>, n: nat)
    requires |positions| == |states| && |vels| == |states| && |homes| == |states| && n <= |states|
    requires forall i :: 0 <= i < |states| ==> CursorInBounds(states[i])
    ensures var r := MovementPass(states, positions, vels, homes, tiles, n);
            && (forall i :: 0 <= i < |r.states| ==> CursorInBounds(r.states[i]))
            && r.tiles.Keys == tiles.Keys
            && SolidKeys(r.tiles) <= SolidKeys(tiles)
            && (WellKeyed(tiles) ==> WellKeyed(r.tiles))
  {
    if n > 0 {
      var before := MovementPass(states, positions, vels, homes, tiles, n - 1);
      PassKeepsInvariants(states, positions, vels, homes, tiles, n - 1);
      TickKeepsCursor(states[n - 1], positions[n - 1], vels[n - 1], homes[n - 1], before.tiles);
      TickOnlyDigs(states[n - 1], positions[n - 1], vels[n - 1], homes[n - 1], before.tiles);
    }
  }

  // ---------------------------------------------------------------------------
  // The systems on the ants and the store

  /**
   * `handle_mouse_click`: on a click that maps to world position `click`,
   * every ant stops, drops its path and searches toward the click. With no
   * click (no press, no window, no cursor or no camera) nothing changes.
   */
  method HandleMouseClick(click: Option<Vec2>, ants: seq<Ant>, vels: seq<Velocity>) returns (newVels: seq<Velocity>)
    requires |vels| == |ants|
    modifies set a | a in ants
    ensures |newVels| == |ants|
    ensures click.None? ==> newVels == vels && forall a :: a in ants ==> a.State() == old(a.State())
    ensures click.Some? ==> forall i :: 0 <= i < |ants| ==>
              ants[i].State() == Assigned(click.value) && newVels[i] == STOPPED
    ensures forall a :: a in ants ==> a.Body() == old(a.Body())
  {
    if click.None? {
      return vels;
    }
    newVels := [];
    var i := 0;
    while i < |ants|
      invariant 0 <= i <= |ants| && |newVels| == i
      invariant forall j :: 0 <= j < i ==> ants[j].State() == Assigned(click.value) && newVels[j] == STOPPED
      invariant forall a :: a in ants ==> a.Body() == old(a.Body())
    {
      var ant := ants[i];
      newVels := newVels + [STOPPED];
      ant.currentPath := None;
      ant.currentPathIndex := 0;
      ant.targetPosition := click;
      ant.workerState := SearchingForDigSite;
      i := i + 1;
    }
  }

  /** `ant_movement` over the ants in query order; `homes[i]` is ant i's colony position, if found. */
  method AntMovement(ants: seq<Ant>, positions: seq<Vec2>, vels: seq<Velocity>, homes: seq<Option<Vec2>>,
                     store: TileStore, ghost states: seq<AntState>) returns (newVels: seq<Velocity>)
    requires |positions| == |ants| && |vels| == |ants| && |homes| == |ants|
    requires forall i, j :: 0 <= i < j < |ants| ==> ants[i] != ants[j]
    requires |states| == |ants| && forall j :: 0 <= j < |ants| ==> ants[j].State() == states[j]
    requires store.Valid()
    modifies store, set a | a in ants
    ensures store.Valid()
    ensures var r := MovementPass(states, positions, vels, homes, old(store.tiles), |ants|);
            && newVels == r.velocities && store.tiles == r.tiles
            && forall j :: 0 <= j < |ants| ==> ants[j].State() == r.states[j]
    ensures forall j :: 0 <= j < |ants| ==> ants[j].Body() == old(ants[j].Body())
  {
    ghost var pass := MovementPass(states, positions, vels, homes, store.tiles, 0);
    newVels := [];
    var i := 0;
    while i < |ants|
      invariant 0 <= i <= |ants|
      invariant store.Valid()
      invariant pass == MovementPass(states, positions, vels, homes, old(store.tiles), i)
      invariant newVels == pass.velocities && store.tiles == pass.tiles
      invariant forall j :: 0 <= j < |ants| ==> ants[j].State() == if j < i then pass.states[j] else states[j]
      invariant forall j :: 0 <= j < |ants| ==> ants[j].Body() == old(ants[j].Body())
    {
      var v;
      v, pass := PassStep(ants, positions, vels, homes, store, states, old(store.tiles), i, pass);
      newVels := newVels + [v];
      i := i + 1;
    }
  }

  /**
   * The `i`-th ant's turn within a pass: one more step of `MovementPass`,
   * touching no other ant.
   */
  method PassStep(ants: seq<Ant>, positions: seq<Vec2>, vels: seq<Velocity>, homes: seq<Option<Vec2>>,
                  store: TileStore, ghost states: seq<AntState>, ghost tiles: map<Vec2, Tile>, i: nat,
                  ghost pass: PassResult)
    returns (v: Velocity, ghost pass': PassResult)
    requires |ants| == |states| && |positions| == |states| && |vels| == |states| && |homes| == |states|
    requires i < |states| && forall j, k :: 0 <= j < k < |ants| ==> ants[j] != ants[k]
    requires store.Valid() && ants[i].State() == states[i]
    requires pass == MovementPass(states, positions, vels, homes, tiles, i) && store.tiles == pass.tiles
    modifies ants[i], store
    ensures store.Valid()
    ensures pass' == MovementPass(states, positions, vels, homes, tiles, i + 1)
    ensures pass'.states == pass.states + [ants[i].State()] && pass'.velocities == pass.velocities + [v]
    ensures store.tiles == pass'.tiles
    ensures forall j :: 0 <= j < |ants| && j != i ==> ants[j].State() == old(ants[j].State())
    ensures forall j :: 0 <= j < |ants| ==> ants[j].Body() == old(ants[j].Body())
  {
    v := StepAnt(ants[i], positions[i], vels[i], homes[i], store);
    pass' := MovementPass(states, positions, vels, homes, tiles, i + 1);
  }

  /** One ant's turn of `ant_movement`, on the ant and the store. */
  method StepAnt(ant: Ant, pos: Vec2, vel: Velocity, home: Option<Vec2>, store: TileStore) returns (newVel: Velocity)
    requires store.Valid()
    modifies ant, store
    ensures store.Valid()
    ensures TickResult(ant.State(), newVel, store.tiles) == Tick(old(ant.State()), pos, vel, home, old(store.tiles))
    ensures ant.Body() == old(ant.Body())
  {
    if ant.targetPosition.None? {
      return STOPPED;
    }
    var target := ant.targetPosition.value;
    if home.Some? && TooFarFromColony(home.value, pos) {
      ant.targetPosition := home;
      return vel;
    }
    if ant.workerState.Digging? {
      newVel := DigStep(ant, pos, vel, store);
      return;
    }
    if DistSq(target, pos) < ARRIVAL_DIST_SQ {
      ant.targetPosition := None;
      ant.currentPath := None;
      ant.currentPathIndex := 0;
      return STOPPED;
    }
    if ant.currentPath.None? || ant.currentPathIndex >= |ant.currentPath.value| {
      PlanStep(ant, pos, store);
      if ant.targetPosition.None? {
        return STOPPED;
      }
    }
    newVel := FollowStep(ant, pos, vel, store);
  }

  /**
   * The two searches of the recompute branch: the nearest accessible point to
   * `target` among the store's solid tiles, which always exists, and the path
   * planned to it.
   */
  method PlanToward(pos: Vec2, target: Vec2, store: TileStore) returns (path: Option<seq<Vec2>>)
    requires store.Valid()
    ensures NearestAccessiblePoint(pos, target, SolidKeys(store.tiles), SEARCH_FUEL).Some?
    ensures path == PlanPath(pos, NearestAccessiblePoint(pos, target, SolidKeys(store.tiles), SEARCH_FUEL).value,
                             SolidKeys(store.tiles), SEARCH_FUEL)
  {
    var solidTiles := store.GetSolidTiles();
    var accessible := FindNearestAccessiblePoint(pos, target, solidTiles, SEARCH_FUEL);
    // The `None` arm of this search is dead: it always finds a point.
    assert accessible.Some?;
    path := FindPath(pos, accessible.value, solidTiles, SEARCH_FUEL);
  }

  /** The path computation of the recompute branch, on the ant. */
  method PlanStep(ant: Ant, pos: Vec2, store: TileStore)
    requires store.Valid() && ant.targetPosition.Some?
    modifies ant
    ensures ant.State() == Replanned(old(ant.State()), pos, store.tiles)
    ensures ant.Body() == old(ant.Body())
  {
    ReplannedCases(ant.State(), pos, store.tiles);
    var path := PlanToward(pos, ant.targetPosition.value, store);
    if path.None? {
      ant.targetPosition := None;
    } else {
      ant.currentPath := path;
      ant.currentPathIndex := 0;
    }
  }

  /** The `Digging` branch of the tick. */
  method DigStep(ant: Ant, pos: Vec2, vel: Velocity, store: TileStore) returns (newVel: Velocity)
    requires store.Valid() && ant.workerState.Digging?
    modifies ant, store
    ensures store.Valid()
    ensures TickResult(ant.State(), newVel, store.tiles) == DigTick(old(ant.State()), pos, vel, old(store.tiles))
    ensures ant.Body() == old(ant.Body())
  {
    var site := ant.workerState.site;
    var gridPos := DigGrid(pos, site);
    if ReachedDigSite(pos, site) {
      if ant.currentPath.Some? && ant.currentPathIndex < |ant.currentPath.value| {
        ant.currentPathIndex := ant.currentPathIndex + 1;
      }
      ant.workerState := SearchingForDigSite;
      return STOPPED;
    }
    newVel := vel;
    var tile := store.GetTile(ToVec2(gridPos));
    if tile.Some? {
      if tile.value.kind == Dirt {
        var found := store.SetTileType(ToVec2(gridPos), Air);
        newVel := Velocity(Sub(site, pos), DIG_SPEED);
      } else {
        newVel := Velocity(Sub(site, pos), ANT_SPEED);
      }
    }
  }

  /** The path-following branch of the tick. */
  method FollowStep(ant: Ant, pos: Vec2, vel: Velocity, store: TileStore) returns (newVel: Velocity)
    requires store.Valid() && ant.currentPath.Some?
    modifies ant
    ensures TickResult(ant.State(), newVel, store.tiles) == FollowPath(old(ant.State()), pos, vel, store.tiles)
    ensures ant.Body() == old(ant.Body())
  {
    var path := ant.currentPath.value;
    var index := ant.currentPathIndex;
    if index < |path| {
      var waypoint := path[index];
      var solidTiles := store.GetSolidTiles();
      var needsDigging := AnyTouching(solidTiles, FromVec2(waypoint));
      if needsDigging {
        ant.workerState := Digging(waypoint);
        return STOPPED;
      }
      if DistSq(waypoint, pos) < WAYPOINT_DIST_SQ {
        ant.currentPathIndex := index + 1;
        newVel := if ant.currentPathIndex >= |path| then STOPPED else vel;
      } else if Slow(vel) {
        newVel := Velocity(Sub(waypoint, pos), BURST_SPEED);
      } else {
        newVel := Velocity(Sub(waypoint, pos), ANT_SPEED);
      }
    } else {
      ant.targetPosition := None;
      ant.currentPath := None;
      ant.currentPathIndex := 0;
      newVel := STOPPED;
    }
  }

  /** `solid_tiles.iter().any(..)`: is some listed tile's cell touching `cell`? */
  method AnyTouching(solidTiles: seq<Vec2>, cell: GridPos) returns (b: bool)
    ensures b <==> exists p :: p in Elements(solidTiles) && Touching(FromVec2(p), cell)
  {
    b := false;
    var i := 0;
    while i < |solidTiles| && !b
      invariant 0 <= i <= |solidTiles|
      invariant !b ==> forall j :: 0 <= j < i ==> !Touching(FromVec2(solidTiles[j]), cell)
      invariant b ==> i > 0 && solidTiles[i - 1] in Elements(solidTiles) && Touching(FromVec2(solidTiles[i - 1]), cell)
    {
      b := Touching(FromVec2(solidTiles[i]), cell);
      i := i + 1;
    }
  }
}
