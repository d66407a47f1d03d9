/**
 * The game update manager: four accumulating timers (farm entities,
 * workers, task assignment, auto-save), each firing its event when it
 * reaches its interval and starting again from zero. The events are
 * reported as the list of timers that fired, in the order the frame checks
 * them; the subscribers they would call are not part of this module.
 */
module GameUpdateManager {
  import opened Wrappers
  import Arith

  datatype TimerType = FarmEntity | Worker | TaskAssignment | AutoSave

  /** One timer's update: add dt, and if the interval is reached fire and restart from zero. */
  function Step(timer: real, dt: real, interval: real): (r: (bool, real))
  {
    var t := timer + dt;
    if t >= interval then (true, 0.0) else (false, t)
  }

  /**
   * A timer fires exactly when the time it has gathered reaches its
   * interval; firing restarts it from zero whatever the excess, and
   * otherwise it grows by exactly dt.
   */
  lemma StepFiresOnceAndDiscardsExcess(timer: real, dt: real, interval: real)
    ensures Step(timer, dt, interval).0 <==> timer + dt >= interval
    ensures Step(timer, dt, interval).0 ==> Step(timer, dt, interval).1 == 0.0
    ensures !Step(timer, dt, interval).0 ==> Step(timer, dt, interval).1 == timer + dt
  {
  }

  /**
   * Where a timer may stand between frames: non-negative and below its
   * interval, or at zero. An interval that is zero or negative is not
   * rejected by the source; such a timer fires on every frame and so stays at zero.
   */
  predicate TimerInRange(timer: real, interval: real)
  {
    0.0 <= timer && (timer < interval || timer == 0.0)
  }

  /** With a non-negative dt, a timer in range stays in range, whatever the interval. */
  lemma StepStaysBelowInterval(timer: real, dt: real, interval: real)
    requires dt >= 0.0 && TimerInRange(timer, interval)
    ensures TimerInRange(Step(timer, dt, interval).1, interval)
    ensures interval <= 0.0 ==> Step(timer, dt, interval) == (true, 0.0)
  {
  }

  /** GetTimerProgress for one timer: timer / interval, or Null where the division has no finite value. */
  function Progress(timer: real, interval: real): (r: Nullable<real>)
    ensures interval == 0.0 <==> r.Null?
  {
    if interval == 0.0 then Null else Some(timer / interval)
  }

  /** A timer in range reports a progress in [0, 1), unless its interval is zero. */
  lemma ProgressInUnitInterval(timer: real, interval: real)
    requires interval != 0.0 && TimerInRange(timer, interval)
    ensures Progress(timer, interval).Some?
    ensures 0.0 <= Progress(timer, interval).value < 1.0
  {
    var q := timer / interval;
    assert q * interval == timer;
    if timer != 0.0 {
      assert interval > 0.0;
      assert q >= 1.0 ==> (q - 1.0) * interval >= 0.0;
      assert q < 0.0 ==> (0.0 - q) * interval > 0.0;
    }
  }

  /** The frame's dt: the frame time scaled by the game speed. */
  function ScaledDelta(deltaTime: real, gameSpeed: real): real
  {
    deltaTime * gameSpeed
  }

  lemma ScaledDeltaNonNegative(deltaTime: real, gameSpeed: real)
    requires deltaTime >= 0.0 && gameSpeed >= 0.0
    ensures ScaledDelta(deltaTime, gameSpeed) >= 0.0
  {
  }

  /** The timer after n frames of one second each, starting from zero. */
  function AfterUnitFrames(n: nat, interval: real): real
  {
    if n == 0 then 0.0 else Step(AfterUnitFrames(n - 1, interval), 1.0, interval).1
  }

  /**
   * With a whole-second interval k and one-second frames, the timer after n
   * frames holds n mod k seconds, and frame n fires exactly when k divides n:
   * the live timer fires at k, 2k, 3k, ... seconds.
   */
  lemma {:induction false} UnitFramesFireAtMultiples(n: nat, k: nat)
    requires k >= 1
    ensures AfterUnitFrames(n, k as real) == (n % k) as real
    ensures n >= 1 ==> (Step(AfterUnitFrames(n - 1, k as real), 1.0, k as real).0 <==> n % k == 0)
  {
    if n >= 1 {
      UnitFramesFireAtMultiples(n - 1, k);
      Arith.ModNext(n - 1, k);
    }
  }

  /** The events one frame raises, in the order Update checks the timers. */
  function Fired(farm: bool, worker: bool, task: bool, save: bool): (r: seq<TimerType>)
    ensures FarmEntity in r <==> farm
    ensures Worker in r <==> worker
    ensures TaskAssignment in r <==> task
    ensures AutoSave in r <==> save
  {
    (if farm then [FarmEntity] else []) + (if worker then [Worker] else [])
    + (if task then [TaskAssignment] else []) + (if save then [AutoSave] else [])
  }

  /** Rank of an event in the frame's checking order. */
  function Rank(t: TimerType): nat
  {
    match t
    case FarmEntity => 0
    case Worker => 1
    case TaskAssignment => 2
    case AutoSave => 3
  }

  /** A frame raises each event at most once, strictly in the checking order. */
  lemma FiredInCheckingOrder(farm: bool, worker: bool, task: bool, save: bool)
    ensures var r := Fired(farm, worker, task, save);
            forall i, j :: 0 <= i < j < |r| ==> Rank(r[i]) < Rank(r[j])
  {
  }

  class GameUpdateManager {
    var farmEntityUpdateInterval: real
    var workerUpdateInterval: real
    var taskAssignmentInterval: real
    var autoSaveUpdateInterval: real
    var gameSpeed: real
    var farmEntityTimer: real
    var workerTimer: real
    var taskAssignmentTimer: real
    var autoSaveTimer: real
    var isInitialized: bool

    /** Every timer is in range for its interval; the intervals themselves may be any value. */
    predicate Valid()
      reads this
    {
      TimerInRange(farmEntityTimer, farmEntityUpdateInterval)
      && TimerInRange(workerTimer, workerUpdateInterval)
      && TimerInRange(taskAssignmentTimer, taskAssignmentInterval)
      && TimerInRange(autoSaveTimer, autoSaveUpdateInterval)
    }

    /** The field initialisers: intervals 1, 1, 2 and 30 seconds, speed 1, not yet initialised. */
    constructor ()
      ensures farmEntityUpdateInterval == 1.0 && workerUpdateInterval == 1.0
      ensures taskAssignmentInterval == 2.0 && autoSaveUpdateInterval == 30.0
      ensures gameSpeed == 1.0 && !isInitialized
      ensures Valid()
    {
      farmEntityUpdateInterval := 1.0;
      workerUpdateInterval := 1.0;
      taskAssignmentInterval := 2.0;
      autoSaveUpdateInterval := 30.0;
      gameSpeed := 1.0;
      farmEntityTimer := 0.0;
      workerTimer := 0.0;
      taskAssignmentTimer := 0.0;
      autoSaveTimer := 0.0;
      isInitialized := false;
    }

    /** Awake, through InitializeTimers: every timer at zero and the manager initialised. */
    method Awake()
      modifies this
      ensures farmEntityTimer == 0.0 && workerTimer == 0.0 && taskAssignmentTimer == 0.0 && autoSaveTimer == 0.0
      ensures isInitialized
      ensures farmEntityUpdateInterval == old(farmEntityUpdateInterval) && workerUpdateInterval == old(workerUpdateInterval)
      ensures taskAssignmentInterval == old(taskAssignmentInterval) && autoSaveUpdateInterval == old(autoSaveUpdateInterval)
      ensures gameSpeed == old(gameSpeed)
    {
      farmEntityTimer := 0.0;
      workerTimer := 0.0;
      taskAssignmentTimer := 0.0;
      autoSaveTimer := 0.0;
      isInitialized := true;
    }

    method UpdateFarmEntityTimer(dt: real) returns (fired: bool)
      modifies this
      ensures (fired, farmEntityTimer) == Step(old(farmEntityTimer), dt, farmEntityUpdateInterval)
      ensures workerTimer == old(workerTimer) && taskAssignmentTimer == old(taskAssignmentTimer)
      ensures autoSaveTimer == old(autoSaveTimer) && unchanged(`farmEntityUpdateInterval, `workerUpdateInterval)
      ensures unchanged(`taskAssignmentInterval, `autoSaveUpdateInterval, `gameSpeed, `isInitialized)
    {
      farmEntityTimer := farmEntityTimer + dt;
      fired := farmEntityTimer >= farmEntityUpdateInterval;
      if fired {
        farmEntityTimer := 0.0;
      }
    }

    method UpdateWorkerTimer(dt: real) returns (fired: bool)
      modifies this
      ensures (fired, workerTimer) == Step(old(workerTimer), dt, workerUpdateInterval)
      ensures farmEntityTimer == old(farmEntityTimer) && taskAssignmentTimer == old(taskAssignmentTimer)
      ensures autoSaveTimer == old(autoSaveTimer) && unchanged(`farmEntityUpdateInterval, `workerUpdateInterval)
      ensures unchanged(`taskAssignmentInterval, `autoSaveUpdateInterval, `gameSpeed, `isInitialized)
    {
      workerTimer := workerTimer + dt;
      fired := workerTimer >= workerUpdateInterval;
      if fired {
        workerTimer := 0.0;
      }
    }

    method UpdateTaskAssignmentTimer(dt: real) returns (fired: bool)
      modifies this
      ensures (fired, taskAssignmentTimer) == Step(old(taskAssignmentTimer), dt, taskAssignmentInterval)
      ensures farmEntityTimer == old(farmEntityTimer) && workerTimer == old(workerTimer)
      ensures autoSaveTimer == old(autoSaveTimer) && unchanged(`farmEntityUpdateInterval, `workerUpdateInterval)
      ensures unchanged(`taskAssignmentInterval, `autoSaveUpdateInterval, `gameSpeed, `isInitialized)
    {
      taskAssignmentTimer := taskAssignmentTimer + dt;
      fired := taskAssignmentTimer >= taskAssignmentInterval;
      if fired {
        taskAssignmentTimer := 0.0;
      }
    }

    method UpdateAutoSaveTimer(dt: real) returns (fired: bool)
      modifies this
      ensures (fired, autoSaveTimer) == Step(old(autoSaveTimer), dt, autoSaveUpdateInterval)
      ensures farmEntityTimer == old(farmEntityTimer) && workerTimer == old(workerTimer)
      ensures taskAssignmentTimer == old(taskAssignmentTimer) && unchanged(`farmEntityUpdateInterval, `workerUpdateInterval)
      ensures unchanged(`taskAssignmentInterval, `autoSaveUpdateInterval, `gameSpeed, `isInitialized)
    {
      autoSaveTimer := autoSaveTimer + dt;
      fired := autoSaveTimer >= autoSaveUpdateInterval;
      if fired {
        autoSaveTimer := 0.0;
      }
    }

    /**
     * Update: nothing before initialisation. Otherwise every timer gets
     * dt = frame time × gameSpeed, in the order farm entity, worker, task
     * assignment, auto-save, and the result lists the events fired, in that
     * order (see FiredInCheckingOrder). A valid manager stays valid when dt ≥ 0.
     */
    method Update(deltaTime: real) returns (fired: seq<TimerType>)
      modifies this
      ensures !old(isInitialized) ==> fired == [] && unchanged(this)
      ensures old(isInitialized) ==>
                var dt := ScaledDelta(deltaTime, gameSpeed);
                var f := Step(old(farmEntityTimer), dt, farmEntityUpdateInterval);
                var w := Step(old(workerTimer), dt, workerUpdateInterval);
                var t := Step(old(taskAssignmentTimer), dt, taskAssignmentInterval);
                var a := Step(old(autoSaveTimer), dt, autoSaveUpdateInterval);
                farmEntityTimer == f.1 && workerTimer == w.1 && taskAssignmentTimer == t.1 && autoSaveTimer == a.1
                && fired == Fired(f.0, w.0, t.0, a.0)
      ensures unchanged(`farmEntityUpdateInterval, `workerUpdateInterval, `taskAssignmentInterval, `autoSaveUpdateInterval)
      ensures unchanged(`gameSpeed, `isInitialized)
      ensures old(Valid()) && deltaTime >= 0.0 && gameSpeed >= 0.0 ==> Valid()
    {
      if !isInitialized {
        return [];
      }
      var dt := ScaledDelta(deltaTime, gameSpeed);
      ghost var speedNonNegative := deltaTime >= 0.0 && gameSpeed >= 0.0;
      if speedNonNegative {
        ScaledDeltaNonNegative(deltaTime, gameSpeed);
      }
      ghost var wasValid := Valid();
      var farm := UpdateFarmEntityTimer(dt);
      var worker := UpdateWorkerTimer(dt);
      var task := UpdateTaskAssignmentTimer(dt);
      var save := UpdateAutoSaveTimer(dt);
      fired := Fired(farm, worker, task, save);
      if wasValid && speedNonNegative {
        StepStaysBelowInterval(old(farmEntityTimer), dt, farmEntityUpdateInterval);
        StepStaysBelowInterval(old(workerTimer), dt, workerUpdateInterval);
        StepStaysBelowInterval(old(taskAssignmentTimer), dt, taskAssignmentInterval);
        StepStaysBelowInterval(old(autoSaveTimer), dt, autoSaveUpdateInterval);
      }
    }

    /** SetGameSpeed: the speed is clamped below at zero, and nothing else changes. */
    method SetGameSpeed(speed: real)
      modifies this
      ensures gameSpeed >= 0.0
      ensures gameSpeed == (if speed < 0.0 then 0.0 else speed)
      ensures unchanged(`farmEntityTimer, `workerTimer, `taskAssignmentTimer, `autoSaveTimer, `isInitialized)
      ensures unchanged(`farmEntityUpdateInterval, `workerUpdateInterval, `taskAssignmentInterval, `autoSaveUpdateInterval)
    {
      gameSpeed := if 0.0 >= speed then 0.0 else speed;
    }

    /** The timer a TimerType names. */
    function Timer(timerType: TimerType): real
      reads this
    {
      match timerType
      case FarmEntity => farmEntityTimer
      case Worker => workerTimer
      case TaskAssignment => taskAssignmentTimer
      case AutoSave => autoSaveTimer
    }

    /** The interval a TimerType names. */
    function Interval(timerType: TimerType): real
      reads this
    {
      match timerType
      case FarmEntity => farmEntityUpdateInterval
      case Worker => workerUpdateInterval
      case TaskAssignment => taskAssignmentInterval
      case AutoSave => autoSaveUpdateInterval
    }

    /** ResetTimer: the named timer is zero, the other three keep their time. */
    method ResetTimer(timerType: TimerType)
      modifies this
      ensures Timer(timerType) == 0.0
      ensures forall other :: other != timerType ==> Timer(other) == old(Timer(other))
      ensures unchanged(`farmEntityUpdateInterval, `workerUpdateInterval, `taskAssignmentInterval, `autoSaveUpdateInterval)
      ensures unchanged(`gameSpeed, `isInitialized)
      ensures old(Valid()) ==> Valid()
    {
      match timerType {
        case FarmEntity => farmEntityTimer := 0.0;
        case Worker => workerTimer := 0.0;
        case TaskAssignment => taskAssignmentTimer := 0.0;
        case AutoSave => autoSaveTimer := 0.0;
      }
    }

    /** GetTimerProgress: the named timer over its interval; in [0, 1) for a valid manager, with no finite value at interval zero. */
    function GetTimerProgress(timerType: TimerType): (r: Nullable<real>)
      reads this
      ensures Interval(timerType) == 0.0 <==> r.Null?
      ensures Valid() && Interval(timerType) != 0.0 ==> r.Some? && 0.0 <= r.value < 1.0
    {
      if Valid() && Interval(timerType) != 0.0 then
        ProgressInUnitInterval(Timer(timerType), Interval(timerType));
        Progress(Timer(timerType), Interval(timerType))
      else
        Progress(Timer(timerType), Interval(timerType))
    }

    /** ForceUpdate: the named event fires now and only its timer restarts from zero. */
    method ForceUpdate(timerType: TimerType) returns (fired: seq<TimerType>)
      modifies this
      ensures fired == [timerType]
      ensures Timer(timerType) == 0.0
      ensures forall other :: other != timerType ==> Timer(other) == old(Timer(other))
      ensures unchanged(`farmEntityUpdateInterval, `workerUpdateInterval, `taskAssignmentInterval, `autoSaveUpdateInterval)
      ensures unchanged(`gameSpeed, `isInitialized)
    {
      fired := [timerType];
      ResetTimer(timerType);
    }
  }
}
