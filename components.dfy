/**
 * The worker ant's component (src/ant/components.rs): its command, role and
 * worker state, the constants the movement tick uses, and the two ways an
 * `Ant` comes into being (its `Default` and the spawn systems' literal).
 */
module Components {
  import opened Optional
  import opened Vectors

  /** `MAX_COLONY_DISTANCE`: how far an ant may stray from its colony. */
  const MAX_COLONY_DISTANCE: int := 500
  /** `ANT_SPEED`, in world units per second. */
  const ANT_SPEED: int := 100

  /** `AntCommand`; its `Default` is `Work`. */
  datatype AntCommand = MoveTo(destination: Vec2) | Work
  {
    static function Default(): AntCommand { Work }
  }

  /** `AntRole`; its `Default` is `Worker`. */
  datatype AntRole = Worker
  {
    static function Default(): AntRole { Worker }
  }

  /** `WorkerState`: searching, or heading for or digging at a site. */
  datatype WorkerState = SearchingForDigSite | MovingToDigSite(site: Vec2) | Digging(site: Vec2)

  /**
   * The four fields the movement tick reads and writes: the worker state,
   * the target, the cached path and the cursor into it.
   */
  datatype AntState = AntState(mode: WorkerState, target: Option<Vec2>, path: Option<seq<Vec2>>, index: nat)

  /** The fields the tick never touches. */
  datatype Profile = Profile(
    speed: int, direction: Vec2, onGround: bool, command: AntCommand, role: AntRole, searchTimerMs: nat)

  /** An ant that is going nowhere: no target, no path, cursor 0, searching. */
  const IDLE: AntState := AntState(SearchingForDigSite, None, None, 0)

  /** The cursor never runs past the end of the cached path. */
  predicate CursorInBounds(s: AntState)
  {
    s.path.Some? ==> s.index <= |s.path.value|
  }

  /**
   * `Ant`. The search timer is kept as its period in milliseconds; it is
   * repeating in both places an ant is made.
   */
  class Ant {
    var speed: int
    var direction: Vec2
    var onGround: bool
    var command: AntCommand
    var role: AntRole
    var workerState: WorkerState
    var searchTimerMs: nat
    var targetPosition: Option<Vec2>
    var currentPath: Option<seq<Vec2>>
    var currentPathIndex: nat

    function State(): AntState
      reads this
    {
      AntState(workerState, targetPosition, currentPath, currentPathIndex)
    }

    function Body(): Profile
      reads this
    {
      Profile(speed, direction, onGround, command, role, searchTimerMs)
    }

    /** `Ant::default()`: idle, at `ANT_SPEED`, facing nowhere, with a 0.1 s timer. */
    constructor Default()
      ensures State() == IDLE && CursorInBounds(State())
      ensures Body() == Profile(ANT_SPEED, ZERO, false, Work, Worker, 100)
    {
      speed := ANT_SPEED;
      direction := ZERO;
      onGround := false;
      command := AntCommand.Default();
      role := AntRole.Default();
      workerState := SearchingForDigSite;
      searchTimerMs := 100;
      targetPosition := None;
      currentPath := None;
      currentPathIndex := 0;
    }

    /**
     * The `Ant` that `spawn_initial_ant` and `handle_spacebar_spawn` build:
     * idle, at `ANT_SPEED`, facing +x, with a 2 s timer.
     */
    constructor Spawned()
      ensures State() == IDLE && CursorInBounds(State())
      ensures Body() == Profile(ANT_SPEED, Vec2(1, 0), false, Work, Worker, 2000)
    {
      speed := ANT_SPEED;
      direction := Vec2(1, 0);
      onGround := false;
      command := Work;
      role := Worker;
      workerState := SearchingForDigSite;
      searchTimerMs := 2000;
      targetPosition := None;
      currentPath := None;
      currentPathIndex := 0;
    }
  }
}
