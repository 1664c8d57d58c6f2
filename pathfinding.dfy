/**
 * The cost-aware grid search of the worker ant (src/ant/pathfinding.rs).
 *
 * Cells are integer pairs on a grid of GRID_SIZE world units. Both searches
 * are best-first searches over the 8-connected grid that charge 10 for an
 * orthogonal step, 14 for a diagonal one, and a dig surcharge for stepping
 * into a solid cell. Each search is given twice: as a recursive function over
 * an explicit search state (`Frontier`), which is the specification, and as a
 * method with the source's while loop, proved equal to the function.
 *
 * The grid is unbounded, so every search carries a `fuel` bound on the
 * number of nodes it pops.
 */
module Pathfinding {
  import opened Optional
  import opened Vectors
  import opened Collections

  const GRID_SIZE: int := 8
  const BASE_DIG_COST: int := 10
  const MAX_DIG_DISTANCE: int := 50

  /** Pops granted to one search call (the source searches without bound). */
  const SEARCH_FUEL: nat := 100000

  datatype GridPos = GridPos(x: int, y: int)

  // ---------------------------------------------------------------------------
  // Grid coordinates

  /** `(w / GRID_SIZE).round()`: index of the nearest cell, halves away from zero. */
  function CellIndex(w: int): (c: int)
    ensures -GRID_SIZE <= 2 * (w - GRID_SIZE * c) <= GRID_SIZE
    ensures 2 * (w - GRID_SIZE * c) == GRID_SIZE ==> w < 0
    ensures 2 * (w - GRID_SIZE * c) == -GRID_SIZE ==> w > 0
  {
    RoundDiv(w, GRID_SIZE)
  }

  /** `GridPos::from_vec2`: the cell whose centre is nearest to `p`. */
  function FromVec2(p: Vec2): GridPos
  {
    GridPos(CellIndex(p.x), CellIndex(p.y))
  }

  /** `GridPos::to_vec2`: the centre of cell `g`, which maps back to `g`. */
  function ToVec2(g: GridPos): (p: Vec2)
    ensures FromVec2(p) == g
  {
    Vec2(g.x * GRID_SIZE, g.y * GRID_SIZE)
  }

  /** `GridPos::distance` squared: Euclidean distance in cell units. */
  function CellDistSq(a: GridPos, b: GridPos): nat
  {
    Square(a.x - b.x) + Square(a.y - b.y)
  }

  /** Two distinct cells that touch by an edge or a corner. */
  predicate Adjacent(a: GridPos, b: GridPos)
  {
    a != b && Abs(a.x - b.x) <= 1 && Abs(a.y - b.y) <= 1
  }

  // ---------------------------------------------------------------------------
  // Search nodes and the binary heap

  datatype Node = Node(pos: GridPos, fCost: int, gCost: int)

  datatype Ordering = Less | Equal | Greater

  /** `Node::cmp`: compares f-costs the other way round, so the max-heap pops the cheapest node. */
  function CompareNodes(a: Node, b: Node): (o: Ordering)
    ensures o == Greater <==> a.fCost < b.fCost
    ensures o == Less <==> b.fCost < a.fCost
  {
    if b.fCost < a.fCost then Less else if b.fCost == a.fCost then Equal else Greater
  }

  /**
   * `BinaryHeap::pop` on the open set: the index of a greatest node under
   * `CompareNodes`, that is one of least f-cost; of several, the earliest pushed.
   */
  function PopIndex(open: seq<Node>): (i: nat)
    requires |open| > 0
    ensures i < |open|
    ensures forall j :: 0 <= j < |open| ==> CompareNodes(open[i], open[j]) != Less
    ensures forall j :: 0 <= j < i ==> open[i].fCost < open[j].fCost
    decreases |open|
  {
    if |open| == 1 then 0
    else
      var k := PopIndex(open[1..]) + 1;
      if open[0].fCost <= open[k].fCost then 0 else k
  }

  /** The open set once the node at `i` has been popped. */
  function Without(open: seq<Node>, i: nat): (r: seq<Node>)
    requires i < |open|
    ensures |r| == |open| - 1
    ensures forall j :: 0 <= j < |r| ==> r[j] == open[if j < i then j else j + 1]
  {
    open[..i] + open[i + 1..]
  }

  // ---------------------------------------------------------------------------
  // Step costs

  /** 14 for a diagonal step, 10 for an orthogonal one. */
  function MoveCost(dx: int, dy: int): int
  {
    if Abs(dx) == 1 && Abs(dy) == 1 then 14 else 10
  }

  /**
   * The dig surcharge `(BASE_DIG_COST * (1 + min(1, d * GRID_SIZE / MAX_DIG_DISTANCE))) as i32`
   * for a start-to-goal cell distance d, given here by its square. Past the
   * direct-dig range the factor is clamped to 1 and the surcharge is 20.
   */
  function DigCost(directSq: nat): (c: int)
    ensures BASE_DIG_COST <= c <= 2 * BASE_DIG_COST
    ensures !InDigRange(directSq) ==> c == 2 * BASE_DIG_COST
  {
    var r := Isqrt(BASE_DIG_COST * BASE_DIG_COST * GRID_SIZE * GRID_SIZE * directSq
                   / (MAX_DIG_DISTANCE * MAX_DIG_DISTANCE));
    IsqrtBelowTen(BASE_DIG_COST * BASE_DIG_COST * GRID_SIZE * GRID_SIZE * directSq
                  / (MAX_DIG_DISTANCE * MAX_DIG_DISTANCE));
    BASE_DIG_COST + (if r < BASE_DIG_COST then r else BASE_DIG_COST)
  }

  lemma IsqrtBelowTen(n: nat)
    ensures Isqrt(n) < 10 ==> n < 100
  {
    var r := Isqrt(n);
    if r < 10 {
      assert (r + 1) * (r + 1) <= 100;
    }
  }

  /** `direct_distance * GRID_SIZE <= MAX_DIG_DISTANCE`, for the squared cell distance. */
  predicate InDigRange(directSq: nat)
  {
    GRID_SIZE * GRID_SIZE * directSq <= MAX_DIG_DISTANCE * MAX_DIG_DISTANCE
  }

  /** `(distance * 10.0) as i32`: the heuristic in cost units. */
  function Heuristic(c: GridPos, goal: GridPos): int
  {
    Isqrt(100 * CellDistSq(c, goal))
  }

  // ---------------------------------------------------------------------------
  // Search state

  /** What one search call is about: its two cells, the solid cells, and the dig surcharge. */
  datatype Query = Query(start: GridPos, goal: GridPos, obstacles: set<GridPos>, digCost: int)

  /** The search's mutable locals: heap, `closed_set`, `came_from`, `g_costs`. */
  datatype Frontier = Frontier(
    open: seq<Node>,
    closed: set<GridPos>,
    cameFrom: map<GridPos, GridPos>,
    gCosts: map<GridPos, int>)

  /** Cost of stepping by (dx, dy) into `nb`: move cost plus the dig surcharge if `nb` is solid. */
  function EdgeCost(q: Query, nb: GridPos, dx: int, dy: int): int
  {
    MoveCost(dx, dy) + (if nb in q.obstacles then q.digCost else 0)
  }

  /**
   * The invariant of both searches: every queued cell has a g-cost; costs are
   * non-negative; the start has cost 0 and no predecessor; every other costed
   * cell has a predecessor, which is an adjacent cell of strictly smaller cost.
   */
  ghost predicate Inv(q: Query, s: Frontier)
  {
    && q.digCost >= 0
    && (forall i :: 0 <= i < |s.open| ==> s.open[i].pos in s.gCosts)
    && q.start in s.gCosts && s.gCosts[q.start] == 0 && q.start !in s.cameFrom
    && (forall c :: c in s.gCosts ==> s.gCosts[c] >= 0)
    && (forall c {:trigger Costed(s, c)} :: Costed(s, c) ==> c == q.start || c in s.cameFrom)
    && (forall c :: c in s.cameFrom ==>
          && c in s.gCosts
          && s.cameFrom[c] in s.gCosts
          && s.gCosts[s.cameFrom[c]] < s.gCosts[c]
          && Adjacent(s.cameFrom[c], c))
  }

  /**
   * `c` has a g-cost. The invariant's "every costed cell has a predecessor"
   * clause fires only on this name, so that it and "every predecessor is
   * costed" do not chase each other along the predecessor chain.
   */
  predicate Costed(s: Frontier, c: GridPos)
  {
    c in s.gCosts
  }

  /** The predecessor recorded for `c`, if any. */
  function Parent(s: Frontier, c: GridPos): Option<GridPos>
  {
    if c in s.cameFrom then Some(s.cameFrom[c]) else None
  }

  /**
   * How relaxation may change the search state: no cell loses its cost,
   * no cost goes up, and a cell whose cost is unchanged keeps its
   * predecessor, so `came_from` moves only together with a strict improvement.
   */
  ghost predicate Relaxed(s: Frontier, r: Frontier)
  {
    && s.gCosts.Keys <= r.gCosts.Keys
    && (forall c :: c in s.gCosts ==> r.gCosts[c] <= s.gCosts[c])
    && (forall c :: c in s.gCosts && r.gCosts[c] == s.gCosts[c] ==> Parent(r, c) == Parent(s, c))
  }

  /** The initial state: only the start is queued, with f = g = 0. */
  function StartFrontier(start: GridPos): Frontier
  {
    Frontier([Node(start, 0, 0)], {}, map[], map[start := 0])
  }

  lemma StartFrontierInv(q: Query)
    requires q.digCost >= 0
    ensures Inv(q, StartFrontier(q.start))
  {
  }

  /**
   * One pass of the neighbour loop, for offset (dx, dy) around `cur`: skips
   * the centre and closed cells; otherwise records the new cost, the
   * predecessor and a queued node when the cell is new or strictly cheaper.
   */
  function Visit(q: Query, s: Frontier, cur: GridPos, dx: int, dy: int): (r: Frontier)
    requires cur in s.gCosts
    requires -1 <= dx <= 1 && -1 <= dy <= 1
    ensures cur in r.gCosts && r.closed == s.closed
  {
    if dx == 0 && dy == 0 then s
    else
      var nb := GridPos(cur.x + dx, cur.y + dy);
      if nb in s.closed then s
      else
        var newG := s.gCosts[cur] + EdgeCost(q, nb, dx, dy);
        if nb !in s.gCosts || newG < s.gCosts[nb] then
          Frontier(
            s.open + [Node(nb, newG + Heuristic(nb, q.goal), newG)],
            s.closed,
            s.cameFrom[nb := cur],
            s.gCosts[nb := newG])
        else s
  }

  /**
   * The two nested neighbour loops from offset (dx, dy) on: dy runs fastest,
   * and (dx, 2) moves on to (dx + 1, -1); dx == 2 is the end.
   */
  function ExpandFrom(q: Query, s: Frontier, cur: GridPos, dx: int, dy: int): (r: Frontier)
    requires cur in s.gCosts
    requires -1 <= dx <= 2 && -1 <= dy <= 2
    ensures cur in r.gCosts && r.closed == s.closed
    decreases 2 - dx, 2 - dy
  {
    if dx == 2 then s
    else if dy == 2 then ExpandFrom(q, s, cur, dx + 1, -1)
    else ExpandFrom(q, Visit(q, s, cur, dx, dy), cur, dx, dy + 1)
  }

  /** All eight neighbours of `cur`. */
  function Expand(q: Query, s: Frontier, cur: GridPos): (r: Frontier)
    requires cur in s.gCosts
    ensures cur in r.gCosts && r.closed == s.closed
  {
    ExpandFrom(q, s, cur, -1, -1)
  }

  /**
   * Recording a strictly better cost `newG` for `nb`, reached from the adjacent
   * cell `cur` at a positive step cost, keeps the invariant and only lowers costs.
   */
  lemma RecordKeepsInv(q: Query, s: Frontier, cur: GridPos, nb: GridPos, newG: int, node: Node)
    requires Inv(q, s) && cur in s.gCosts && Adjacent(cur, nb)
    requires newG > s.gCosts[cur] && (nb !in s.gCosts || newG < s.gCosts[nb])
    requires node.pos == nb
    ensures var r := Frontier(s.open + [node], s.closed, s.cameFrom[nb := cur], s.gCosts[nb := newG]);
            Inv(q, r) && Relaxed(s, r)
  {
    var r := Frontier(s.open + [node], s.closed, s.cameFrom[nb := cur], s.gCosts[nb := newG]);
    assert nb != q.start;
    forall i | 0 <= i < |r.open|
      ensures r.open[i].pos in r.gCosts
    {
      if i < |s.open| {
        assert r.open[i] == s.open[i];
      }
    }
    forall c | Costed(r, c)
      ensures c == q.start || c in r.cameFrom
    {
      if c != nb {
        assert Costed(s, c);
      }
    }
    forall c | c in r.cameFrom
      ensures r.cameFrom[c] in r.gCosts && r.gCosts[r.cameFrom[c]] < r.gCosts[c]
    {
      if c != nb {
        assert r.gCosts[s.cameFrom[c]] <= s.gCosts[s.cameFrom[c]];
      }
    }
  }

  /** Relaxing one neighbour keeps the search invariant, and only lowers costs. */
  lemma VisitKeepsInv(q: Query, s: Frontier, cur: GridPos, dx: int, dy: int)
    requires Inv(q, s) && cur in s.gCosts
    requires -1 <= dx <= 1 && -1 <= dy <= 1
    ensures Inv(q, Visit(q, s, cur, dx, dy)) && Relaxed(s, Visit(q, s, cur, dx, dy))
  {
    var nb := GridPos(cur.x + dx, cur.y + dy);
    var r := Visit(q, s, cur, dx, dy);
    if dx == 0 && dy == 0 {
      assert r == s;
    } else if nb in s.closed {
      assert r == s;
    } else {
      var newG := s.gCosts[cur] + EdgeCost(q, nb, dx, dy);
      if nb !in s.gCosts || newG < s.gCosts[nb] {
        var node := Node(nb, newG + Heuristic(nb, q.goal), newG);
        assert r == Frontier(s.open + [node], s.closed, s.cameFrom[nb := cur], s.gCosts[nb := newG]);
        RecordKeepsInv(q, s, cur, nb, newG, node);
      } else {
        assert r == s;
      }
    }
  }

  lemma {:induction false} ExpandFromKeepsInv(q: Query, s: Frontier, cur: GridPos, dx: int, dy: int)
    requires Inv(q, s) && cur in s.gCosts
    requires -1 <= dx <= 2 && -1 <= dy <= 2
    ensures Inv(q, ExpandFrom(q, s, cur, dx, dy)) && Relaxed(s, ExpandFrom(q, s, cur, dx, dy))
    decreases 2 - dx, 2 - dy
  {
    if dx == 2 {
      assert ExpandFrom(q, s, cur, dx, dy) == s;
    } else if dy == 2 {
      assert ExpandFrom(q, s, cur, dx, dy) == ExpandFrom(q, s, cur, dx + 1, -1);
      ExpandFromKeepsInv(q, s, cur, dx + 1, -1);
    } else {
      var s1 := Visit(q, s, cur, dx, dy);
      var s2 := ExpandFrom(q, s1, cur, dx, dy + 1);
      assert ExpandFrom(q, s, cur, dx, dy) == s2;
      VisitKeepsInv(q, s, cur, dx, dy);
      ExpandFromKeepsInv(q, s1, cur, dx, dy + 1);
      RelaxedTransitive(s, s1, s2);
    }
  }

  lemma RelaxedTransitive(a: Frontier, b: Frontier, c: Frontier)
    requires Relaxed(a, b) && Relaxed(b, c)
    ensures Relaxed(a, c)
  {
  }

  /** Expanding a cell keeps the search invariant. */
  lemma ExpandKeepsInv(q: Query, s: Frontier, cur: GridPos)
    requires Inv(q, s) && cur in s.gCosts
    ensures Inv(q, Expand(q, s, cur)) && Relaxed(s, Expand(q, s, cur))
  {
    ExpandFromKeepsInv(q, s, cur, -1, -1);
  }

  /**
   * Pops a node of least f-cost and closes its cell, as the loop head does:
   * the other nodes stay queued in order, and the costs and predecessors are
   * left alone.
   */
  function PopAndClose(s: Frontier): (r: (GridPos, Frontier))
    requires |s.open| > 0
    ensures exists i | 0 <= i < |s.open| ::
              && r.0 == s.open[i].pos
              && r.1.open == Without(s.open, i)
              && (forall j | 0 <= j < |s.open| :: s.open[i].fCost <= s.open[j].fCost)
    ensures r.1.closed == s.closed + {r.0}
    ensures |r.1.open| == |s.open| - 1
    ensures r.1.cameFrom == s.cameFrom && r.1.gCosts == s.gCosts
  {
    var i := PopIndex(s.open);
    (s.open[i].pos, Frontier(Without(s.open, i), s.closed + {s.open[i].pos}, s.cameFrom, s.gCosts))
  }

  lemma PopKeepsInv(q: Query, s: Frontier)
    requires Inv(q, s) && |s.open| > 0
    ensures PopAndClose(s).0 in s.gCosts
    ensures Inv(q, PopAndClose(s).1)
  {
    forall c | Costed(PopAndClose(s).1, c)
      ensures c == q.start || c in s.cameFrom
    {
      assert Costed(s, c);
    }
  }

  // ---------------------------------------------------------------------------
  // find_path

  /** Each point of `p` lies in a cell adjacent to the cell of the point before it. */
  ghost predicate Chained(p: seq<Vec2>)
  {
    forall i, j :: 0 <= i && j == i + 1 && j < |p| ==> Adjacent(FromVec2(p[i]), FromVec2(p[j]))
  }

  /**
   * Path reconstruction: the cell centres from the start (excluded) to `c`
   * (included), following `came_from` back and reversing.
   */
  function Trace(q: Query, s: Frontier, c: GridPos): (t: seq<Vec2>)
    requires Inv(q, s) && c in s.gCosts
    ensures (t == []) <==> (c == q.start)
    ensures t != [] ==> t[|t| - 1] == ToVec2(c)
    decreases s.gCosts[c]
  {
    if c == q.start then []
    else
      assert Costed(s, c);
      Trace(q, s, s.cameFrom[c]) + [ToVec2(c)]
  }

  /** The traced centres step from cell to adjacent cell, starting next to the start cell. */
  lemma {:induction false} TraceChained(q: Query, s: Frontier, c: GridPos)
    requires Inv(q, s) && c in s.gCosts
    ensures Chained(Trace(q, s, c))
    ensures Trace(q, s, c) != [] ==> Adjacent(q.start, FromVec2(Trace(q, s, c)[0]))
    decreases s.gCosts[c]
  {
    if c != q.start {
      assert Costed(s, c);
      var p := s.cameFrom[c];
      var prev := Trace(q, s, p);
      TraceChained(q, s, p);
      var t := prev + [ToVec2(c)];
      assert Trace(q, s, c) == t;
      if prev != [] {
        assert FromVec2(prev[|prev| - 1]) == p;
        assert t[0] == prev[0];
      }
      forall i, j | 0 <= i && j == i + 1 && j < |t|
        ensures Adjacent(FromVec2(t[i]), FromVec2(t[j]))
      {
        if j < |prev| {
          assert t[i] == prev[i] && t[j] == prev[j];
        }
      }
    }
  }

  /** One pop's worth of the search's fuel spent. */
  function Spend(fuel: nat): nat
    requires fuel > 0
  {
    fuel - 1
  }

  /**
   * What `find_path` returns for a search: the literal start, then one
   * cell centre per step, each adjacent to the one before, ending at the goal
   * cell's centre.
   */
  ghost predicate ShapedPath(q: Query, start: Vec2, p: seq<Vec2>)
  {
    && |p| >= 1
    && p[0] == start
    && (q.goal == q.start ==> p == [start])
    && (q.goal != q.start ==> |p| >= 2 && p[|p| - 1] == ToVec2(q.goal))
    && Chained(p)
  }

  /** The search loop of `find_path`: pop, stop at the goal, else close and expand. */
  function PathSearch(q: Query, start: Vec2, s: Frontier, fuel: nat): Option<seq<Vec2>>
    requires Inv(q, s) && FromVec2(start) == q.start
    decreases fuel
  {
    if fuel == 0 || |s.open| == 0 then None
    else
      PopKeepsInv(q, s);
      var (cur, s') := PopAndClose(s);
      if cur == q.goal then Some([start] + Trace(q, s, cur))
      else
        ExpandKeepsInv(q, s', cur);
        PathSearch(q, start, Expand(q, s', cur), Spend(fuel))
  }

  /** Every path the search returns has the shape `find_path` promises. */
  lemma {:induction false} PathSearchShaped(q: Query, start: Vec2, s: Frontier, fuel: nat)
    requires Inv(q, s) && FromVec2(start) == q.start
    ensures PathSearch(q, start, s, fuel).Some? ==> ShapedPath(q, start, PathSearch(q, start, s, fuel).value)
    decreases fuel
  {
    if fuel > 0 && |s.open| > 0 {
      PopKeepsInv(q, s);
      var (cur, s') := PopAndClose(s);
      if cur == q.goal {
        TraceChained(q, s, cur);
        var t := Trace(q, s, cur);
        var p := [start] + t;
        if t != [] {
          assert p[1] == t[0];
          forall i, j | 0 <= i && j == i + 1 && j < |p|
            ensures Adjacent(FromVec2(p[i]), FromVec2(p[j]))
          {
            if i > 0 {
              assert p[i] == t[i - 1] && p[j] == t[j - 1];
            }
          }
        }
      } else {
        ExpandKeepsInv(q, s', cur);
        PathSearchShaped(q, start, Expand(q, s', cur), Spend(fuel));
      }
    }
  }

  /** One turn of the `find_path` loop, as a fact the loop in `FindPath` can use. */
  lemma {:induction false} PathSearchStep(q: Query, start: Vec2, s: Frontier, fuel: nat)
    requires Inv(q, s) && FromVec2(start) == q.start && fuel > 0 && |s.open| > 0
    ensures PopAndClose(s).0 in s.gCosts && Inv(q, PopAndClose(s).1)
    ensures PopAndClose(s).0 == q.goal ==> PathSearch(q, start, s, fuel) == Some([start] + Trace(q, s, q.goal))
    ensures PopAndClose(s).0 != q.goal ==>
              && Inv(q, Expand(q, PopAndClose(s).1, PopAndClose(s).0))
              && PathSearch(q, start, s, fuel)
                 == PathSearch(q, start, Expand(q, PopAndClose(s).1, PopAndClose(s).0), Spend(fuel))
  {
    PopKeepsInv(q, s);
    var (cur, s') := PopAndClose(s);
    if cur == q.goal {
      assert PathSearch(q, start, s, fuel) == Some([start] + Trace(q, s, cur));
    } else {
      ExpandKeepsInv(q, s', cur);
      assert PathSearch(q, start, s, fuel) == PathSearch(q, start, Expand(q, s', cur), Spend(fuel));
    }
  }

  /** The same turn, stated over the state the loop holds after it. */
  lemma {:induction false} PathSearchNext(q: Query, start: Vec2, s: Frontier, fuel: nat, s2: Frontier, fuel2: nat)
    requires Inv(q, s) && FromVec2(start) == q.start && fuel > 0 && |s.open| > 0
    requires PopAndClose(s).0 != q.goal && fuel2 == Spend(fuel)
    requires s2 == Expand(q, PopAndClose(s).1, PopAndClose(s).0)
    ensures Inv(q, s2) && PathSearch(q, start, s, fuel) == PathSearch(q, start, s2, fuel2)
  {
    PathSearchStep(q, start, s, fuel);
  }

  /** The obstacle set: the cell of every solid tile position. */
  function ObstacleCells(solids: set<Vec2>): set<GridPos>
  {
    set p | p in solids :: FromVec2(p)
  }

  /** The query both searches build from their arguments. */
  function SearchQuery(startPos: GridPos, goalPos: GridPos, solids: set<Vec2>): (q: Query)
    ensures q.digCost >= 0
  {
    Query(startPos, goalPos, ObstacleCells(solids), DigCost(CellDistSq(startPos, goalPos)))
  }

  /**
   * `find_path(start, end, solid_tiles)`: `[start, end]` when the two cells are
   * within direct-dig range; otherwise the search's result.
   */
  function PlanPath(start: Vec2, end: Vec2, solids: set<Vec2>, fuel: nat): (r: Option<seq<Vec2>>)
    ensures InDigRange(CellDistSq(FromVec2(start), FromVec2(end))) ==> r == Some([start, end])
    ensures r.Some? ==> |r.value| >= 2 && r.value[0] == start
    ensures r.Some? && !InDigRange(CellDistSq(FromVec2(start), FromVec2(end))) ==>
              && r.value[|r.value| - 1] == ToVec2(FromVec2(end))
              && Chained(r.value)
  {
    var startPos, endPos := FromVec2(start), FromVec2(end);
    if InDigRange(CellDistSq(startPos, endPos)) then Some([start, end])
    else
      var q := SearchQuery(startPos, endPos, solids);
      StartFrontierInv(q);
      assert CellDistSq(startPos, startPos) == 0;
      assert q.start != q.goal;
      PathSearchShaped(q, start, StartFrontier(startPos), fuel);
      var found := PathSearch(q, start, StartFrontier(startPos), fuel);
      assert found.Some? ==> ShapedPath(q, start, found.value);
      found
  }

  // ---------------------------------------------------------------------------
  // find_nearest_accessible_point

  /** Result of the relaxed search: the nearest popped cell, and every cell popped. */
  datatype Nearest = Nearest(point: Option<GridPos>, visited: set<GridPos>)

  /** `distance_to_target < 2.0`, for the squared cell distance. */
  predicate CloseEnough(distSq: nat)
  {
    distSq < 4
  }

  /**
   * `best` is the cell of least distance to the goal among `visited`, the
   * first such one popped, and no visited cell was close enough to stop.
   */
  ghost predicate NearestSoFar(q: Query, visited: set<GridPos>, best: Option<GridPos>)
  {
    && (best.None? <==> visited == {})
    && (best.Some? ==> best.value in visited)
    && (forall c :: c in visited && best.Some? ==> CellDistSq(best.value, q.goal) <= CellDistSq(c, q.goal))
    && (forall c :: c in visited ==> !CloseEnough(CellDistSq(c, q.goal)))
  }

  /** The best cell after popping `cur`: `cur` when it is strictly nearer than the best so far. */
  function Improve(q: Query, best: Option<GridPos>, cur: GridPos): (r: Option<GridPos>)
    ensures r.Some?
    ensures r == Some(cur) || r == best
    ensures CellDistSq(r.value, q.goal) <= CellDistSq(cur, q.goal)
    ensures best.Some? ==> CellDistSq(r.value, q.goal) <= CellDistSq(best.value, q.goal)
    ensures best.Some? && r.value != best.value ==> CellDistSq(cur, q.goal) < CellDistSq(best.value, q.goal)
  {
    if best.None? || CellDistSq(cur, q.goal) < CellDistSq(best.value, q.goal) then Some(cur) else best
  }

  /**
   * The search loop of `find_nearest_accessible_point`: each popped cell
   * strictly nearer to the goal than the best so far becomes the best; the
   * loop stops at the first popped cell within 2 cells of the goal.
   */
  function NearestSearch(q: Query, s: Frontier, best: Option<GridPos>, fuel: nat): (r: Nearest)
    requires Inv(q, s) && NearestSoFar(q, s.closed, best)
    ensures s.closed <= r.visited
    ensures (best.Some? || (fuel > 0 && |s.open| > 0)) ==> r.point.Some?
    ensures r.point.Some? ==> r.point.value in r.visited
    ensures forall c :: c in r.visited && r.point.Some? ==>
              CellDistSq(r.point.value, q.goal) <= CellDistSq(c, q.goal)
    ensures forall c :: c in r.visited && Some(c) != r.point ==> !CloseEnough(CellDistSq(c, q.goal))
    decreases fuel
  {
    if fuel == 0 || |s.open| == 0 then Nearest(best, s.closed)
    else
      PopKeepsInv(q, s);
      var (cur, s') := PopAndClose(s);
      var best' := Improve(q, best, cur);
      if CloseEnough(CellDistSq(cur, q.goal)) then Nearest(best', s.closed + {cur})
      else
        ExpandKeepsInv(q, s', cur);
        NearestSearch(q, Expand(q, s', cur), best', Spend(fuel))
  }

  /** A turn of the nearest-point loop that stops at a close-enough cell. */
  lemma {:induction false} NearestSearchStop(q: Query, s: Frontier, best: Option<GridPos>, fuel: nat)
    requires Inv(q, s) && NearestSoFar(q, s.closed, best) && fuel > 0 && |s.open| > 0
    requires CloseEnough(CellDistSq(PopAndClose(s).0, q.goal))
    ensures NearestSearch(q, s, best, fuel).point == Improve(q, best, PopAndClose(s).0)
  {
  }

  /** A turn of the nearest-point loop that goes on, over the state the loop holds after it. */
  lemma {:induction false} NearestSearchNext(q: Query, s: Frontier, best: Option<GridPos>, fuel: nat,
                          s2: Frontier, best2: Option<GridPos>, fuel2: nat)
    requires Inv(q, s) && NearestSoFar(q, s.closed, best) && fuel > 0 && |s.open| > 0
    requires !CloseEnough(CellDistSq(PopAndClose(s).0, q.goal))
    requires best2 == Improve(q, best, PopAndClose(s).0) && fuel2 == Spend(fuel)
    requires s2 == Expand(q, PopAndClose(s).1, PopAndClose(s).0)
    ensures Inv(q, s2) && NearestSoFar(q, s2.closed, best2)
    ensures NearestSearch(q, s, best, fuel) == NearestSearch(q, s2, best2, fuel2)
  {
    PopKeepsInv(q, s);
    ExpandKeepsInv(q, PopAndClose(s).1, PopAndClose(s).0);
  }

  /**
   * `find_nearest_accessible_point(start, target, solid_tiles)`: the literal
   * target when it is within direct-dig range; otherwise the centre of the
   * nearest cell the search popped.
   */
  function NearestAccessiblePoint(start: Vec2, target: Vec2, solids: set<Vec2>, fuel: nat): (r: Option<Vec2>)
    ensures InDigRange(CellDistSq(FromVec2(start), FromVec2(target))) ==> r == Some(target)
    ensures !InDigRange(CellDistSq(FromVec2(start), FromVec2(target))) && fuel > 0 ==>
              r.Some? && r.value == ToVec2(FromVec2(r.value))
  {
    var startPos, targetPos := FromVec2(start), FromVec2(target);
    if InDigRange(CellDistSq(startPos, targetPos)) then Some(target)
    else
      var q := SearchQuery(startPos, targetPos, solids);
      StartFrontierInv(q);
      var n := NearestSearch(q, StartFrontier(startPos), None, fuel);
      if n.point.Some? then Some(ToVec2(n.point.value)) else None
  }

  // ---------------------------------------------------------------------------
  // The two searches as the source runs them

  function Reversed<T>(s: seq<T>): (r: seq<T>)
    ensures |r| == |s|
  {
    if s == [] then [] else [s[|s| - 1]] + Reversed(s[..|s| - 1])
  }

  lemma ReversedSnoc<T>(s: seq<T>, x: T)
    ensures Reversed(s + [x]) == [x] + Reversed(s)
  {
    assert (s + [x])[..|s|] == s;
  }

  /** One pass of the neighbour loop's body, for offset (dx, dy). */
  method RelaxNeighbor(q: Query, s: Frontier, cur: GridPos, dx: int, dy: int) returns (r: Frontier)
    requires cur in s.gCosts
    requires -1 <= dx <= 1 && -1 <= dy <= 1
    ensures r == Visit(q, s, cur, dx, dy)
  {
    r := s;
    if dx == 0 && dy == 0 {
      return;
    }
    var neighbor := GridPos(cur.x + dx, cur.y + dy);
    if neighbor in s.closed {
      return;
    }
    var movementCost := if Abs(dx) == 1 && Abs(dy) == 1 then 14 else 10;
    var totalCost := if neighbor in q.obstacles then movementCost + q.digCost else movementCost;
    var newG := s.gCosts[cur] + totalCost;
    if neighbor !in s.gCosts || newG < s.gCosts[neighbor] {
      var h := Isqrt(100 * CellDistSq(neighbor, q.goal));
      r := Frontier(
        s.open + [Node(neighbor, newG + h, newG)],
        s.closed,
        s.cameFrom[neighbor := cur],
        s.gCosts[neighbor := newG]);
    }
  }

  /** The neighbour loop: both `for` loops over dx and dy around `cur`. */
  method ExpandNode(q: Query, s: Frontier, cur: GridPos) returns (r: Frontier)
    requires cur in s.gCosts
    ensures r == Expand(q, s, cur)
  {
    r := s;
    for dx := -1 to 2
      invariant cur in r.gCosts
      invariant ExpandFrom(q, r, cur, dx, -1) == Expand(q, s, cur)
    {
      for dy := -1 to 2
        invariant cur in r.gCosts
        invariant ExpandFrom(q, r, cur, dx, dy) == Expand(q, s, cur)
      {
        ghost var before := r;
        r := RelaxNeighbor(q, r, cur, dx, dy);
        assert ExpandFrom(q, before, cur, dx, dy) == ExpandFrom(q, r, cur, dx, dy + 1);
      }
      assert ExpandFrom(q, r, cur, dx, 2) == ExpandFrom(q, r, cur, dx + 1, -1);
    }
  }

  /** Walks `came_from` back from the goal, pushes the literal start, and reverses. */
  method ReconstructPath(q: Query, s: Frontier, start: Vec2) returns (path: seq<Vec2>)
    requires Inv(q, s) && q.goal in s.gCosts
    ensures path == [start] + Trace(q, s, q.goal)
  {
    path := [];
    var current := q.goal;
    while current != q.start
      invariant current in s.gCosts
      invariant Trace(q, s, q.goal) == Trace(q, s, current) + Reversed(path)
      decreases s.gCosts[current]
    {
      assert Costed(s, current);
      var parent := s.cameFrom[current];
      ghost var rest := Trace(q, s, parent);
      assert Trace(q, s, current) == rest + [ToVec2(current)];
      ReversedSnoc(path, ToVec2(current));
      assert rest + Reversed(path + [ToVec2(current)]) == (rest + [ToVec2(current)]) + Reversed(path);
      path := path + [ToVec2(current)];
      current := parent;
    }
    ReversedSnoc(path, start);
    path := path + [start];
    path := Reversed(path);
  }

  /** The `HashSet` of cells built from the solid tile positions. */
  method CollectObstacles(solidTiles: seq<Vec2>) returns (obstacles: set<GridPos>)
    ensures obstacles == ObstacleCells(Elements(solidTiles))
  {
    obstacles := {};
    for i := 0 to |solidTiles|
      invariant obstacles == ObstacleCells(Elements(solidTiles[..i]))
    {
      assert Elements(solidTiles[..i + 1]) == Elements(solidTiles[..i]) + {solidTiles[i]};
      obstacles := obstacles + {FromVec2(solidTiles[i])};
    }
    assert solidTiles[..|solidTiles|] == solidTiles;
  }

  /** `find_path`, with at most `fuel` pops. */
  method FindPath(start: Vec2, end: Vec2, solidTiles: seq<Vec2>, fuel: nat) returns (r: Option<seq<Vec2>>)
    ensures r == PlanPath(start, end, Elements(solidTiles), fuel)
  {
    var startPos := FromVec2(start);
    var endPos := FromVec2(end);
    var directDistance := CellDistSq(startPos, endPos);
    if InDigRange(directDistance) {
      return Some([start, end]);
    }
    var obstacles := CollectObstacles(solidTiles);
    var q := Query(startPos, endPos, obstacles, DigCost(directDistance));
    assert q == SearchQuery(startPos, endPos, Elements(solidTiles));
    StartFrontierInv(q);

    var search := StartFrontier(startPos);
    var pops := fuel;
    while pops > 0 && |search.open| > 0
      invariant Inv(q, search)
      invariant PathSearch(q, start, search, pops) == PathSearch(q, start, StartFrontier(startPos), fuel)
      decreases pops
    {
      PathSearchStep(q, start, search, pops);
      var i := PopIndex(search.open);
      var current := search.open[i];
      if current.pos == endPos {
        var path := ReconstructPath(q, search, start);
        return Some(path);
      }
      var popped := search.(open := Without(search.open, i), closed := search.closed + {current.pos});
      assert (current.pos, popped) == PopAndClose(search);
      ghost var (before, beforePops) := (search, pops);
      search := ExpandNode(q, popped, current.pos);
      pops := Spend(pops);
      PathSearchNext(q, start, before, beforePops, search, pops);
    }
    return None;
  }

  /** `find_nearest_accessible_point`, with at most `fuel` pops. */
  method FindNearestAccessiblePoint(start: Vec2, target: Vec2, solidTiles: seq<Vec2>, fuel: nat)
    returns (r: Option<Vec2>)
    ensures r == NearestAccessiblePoint(start, target, Elements(solidTiles), fuel)
  {
    var startPos := FromVec2(start);
    var targetPos := FromVec2(target);
    var directDistance := CellDistSq(startPos, targetPos);
    if InDigRange(directDistance) {
      return Some(target);
    }
    var obstacles := CollectObstacles(solidTiles);
    var q := Query(startPos, targetPos, obstacles, DigCost(directDistance));
    assert q == SearchQuery(startPos, targetPos, Elements(solidTiles));
    StartFrontierInv(q);

    var search := StartFrontier(startPos);
    // `min_distance` starts at f32::MAX, written here as None.
    var nearestPoint: Option<Vec2> := None;
    var minDistance: Option<nat> := None;
    ghost var best: Option<GridPos> := None;
    var pops := fuel;
    while pops > 0 && |search.open| > 0
      invariant Inv(q, search)
      invariant NearestSoFar(q, search.closed, best)
      invariant nearestPoint == (if best.Some? then Some(ToVec2(best.value)) else None)
      invariant minDistance == (if best.Some? then Some(CellDistSq(best.value, targetPos)) else None)
      invariant NearestSearch(q, search, best, pops).point == NearestSearch(q, StartFrontier(startPos), None, fuel).point
      decreases pops
    {
      PopKeepsInv(q, search);
      var i := PopIndex(search.open);
      var current := search.open[i];
      var popped := search.(open := Without(search.open, i), closed := search.closed + {current.pos});
      assert (current.pos, popped) == PopAndClose(search);
      ghost var (before, beforeBest, beforePops) := (search, best, pops);
      var distanceToTarget := CellDistSq(current.pos, targetPos);
      if minDistance.None? || distanceToTarget < minDistance.value {
        minDistance := Some(distanceToTarget);
        nearestPoint := Some(ToVec2(current.pos));
      }
      best := Improve(q, best, current.pos);
      if CloseEnough(distanceToTarget) {
        NearestSearchStop(q, before, beforeBest, beforePops);
        break;
      }
      search := ExpandNode(q, popped, current.pos);
      pops := Spend(pops);
      NearestSearchNext(q, before, beforeBest, beforePops, search, best, pops);
    }
    r := nearestPoint;
  }

  // ---------------------------------------------------------------------------
  // Properties of the grid model

  /** Positions within half a cell of a centre map to that cell. */
  lemma SnapToNearestCentre(p: Vec2, g: GridPos)
    requires 2 * Abs(p.x - GRID_SIZE * g.x) < GRID_SIZE && 2 * Abs(p.y - GRID_SIZE * g.y) < GRID_SIZE
    ensures FromVec2(p) == g
  {
    var c := FromVec2(p);
    assert -GRID_SIZE < 2 * GRID_SIZE * (c.x - g.x) < GRID_SIZE + GRID_SIZE;
    assert -GRID_SIZE < 2 * GRID_SIZE * (c.y - g.y) < GRID_SIZE + GRID_SIZE;
  }

  /** `GridPos::distance` is symmetric and vanishes exactly on equal cells. */
  lemma CellDistanceMetric(a: GridPos, b: GridPos)
    ensures CellDistSq(a, b) == CellDistSq(b, a)
    ensures CellDistSq(a, b) == 0 <==> a == b
  {
    assert Square(a.x - b.x) == Square(b.x - a.x);
    assert Square(a.y - b.y) == Square(b.y - a.y);
  }

  /** A step into a solid cell past the direct-dig range costs 30 or 34; any other step 10 or 14. */
  lemma StepCosts(startPos: GridPos, goalPos: GridPos, solids: set<Vec2>, nb: GridPos, dx: int, dy: int)
    requires !InDigRange(CellDistSq(startPos, goalPos))
    requires -1 <= dx <= 1 && -1 <= dy <= 1 && !(dx == 0 && dy == 0)
    ensures nb in ObstacleCells(solids) ==>
              EdgeCost(SearchQuery(startPos, goalPos, solids), nb, dx, dy) == (if dx != 0 && dy != 0 then 34 else 30)
    ensures nb !in ObstacleCells(solids) ==>
              EdgeCost(SearchQuery(startPos, goalPos, solids), nb, dx, dy) == (if dx != 0 && dy != 0 then 14 else 10)
  {
  }
}
