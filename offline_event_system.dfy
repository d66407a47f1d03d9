/**
 * The offline event system as the object the game creates: it builds the
 * event timeline, sorts it and replays it on the loaded save through the
 * same services the live game uses. Each method is proved against
 * OfflineEventModel; the counters are carried from handler to handler.
 */
module OfflineEventSystem {
  import opened Wrappers
  import opened Catalog
  import WorkerLifecycle
  import GameState
  import GameSaveData
  import PlayerDataService
  import WorkerService
  import WorkerTaskProcessingService
  import WorkerTaskAssignmentService
  import WorkerTaskAssignmentModel
  import FarmEntityUpdateManager
  import opened OfflineTimeline
  import opened OfflineResult
  import WorkerUpdateModel
  import M = OfflineEventModel

  /**
   * The loop of the first foreach, on the worker list: each busy worker is
   * replaced by its updated self and each real completion is appended.
   */
  method UpdateEachWorker(start: seq<WorkerLifecycle.Worker>, deltaTime: real, now: int)
    returns (completedTasks: seq<WorkerLifecycle.WorkerTaskResult>, workers: seq<WorkerLifecycle.Worker>)
    ensures completedTasks == M.Completions(start, deltaTime, now)
    ensures workers == M.AdvancedWorkers(start, deltaTime, now)
  {
    ghost var advanced := M.AdvancedWorkers(start, deltaTime, now);
    workers := start;
    completedTasks := [];
    var i := 0;
    while i < |workers|
      invariant |workers| == |start|
      invariant 0 <= i <= |workers|
      invariant forall j :: 0 <= j < i ==> workers[j] == advanced[j]
      invariant forall j :: i <= j < |workers| ==> workers[j] == start[j]
      invariant completedTasks == M.Completions(start[..i], deltaTime, now)
    {
      var updated, finished := UpdateWorker(workers[i], deltaTime, now);
      M.CompletionsStep(start, i, deltaTime, now);
      workers := workers[i := updated];
      completedTasks := completedTasks + finished;
      i := i + 1;
    }
    assert start[..i] == start;
  }

  /** The foreach body: a busy worker works for dt; a real completion is handed back. */
  method UpdateWorker(worker: WorkerLifecycle.Worker, deltaTime: real, now: int)
    returns (updated: WorkerLifecycle.Worker, finished: seq<WorkerLifecycle.WorkerTaskResult>)
    ensures updated == WorkerUpdateModel.Advance(worker, deltaTime, now)
    ensures finished == if M.Finishes(worker, deltaTime, now) then [WorkerLifecycle.UpdateTask(worker, deltaTime, now).0] else []
  {
    updated, finished := worker, [];
    if WorkerLifecycle.IsBusy(worker) {
      var taskResult := WorkerLifecycle.UpdateTask(worker, deltaTime, now);
      updated := taskResult.1;
      if taskResult.0.success && taskResult.0.completedTask != WorkerLifecycle.WorkerTask.None {
        finished := [taskResult.0];
      }
    }
  }

  class OfflineEventSystem {
    const intervals: M.Intervals
    const taskAssignmentService: WorkerTaskAssignmentService.WorkerTaskAssignmentService
    const taskProcessingService: WorkerTaskProcessingService.WorkerTaskProcessingService

    /** The intervals come from the game update manager when there is one. */
    constructor (managerIntervals: Nullable<M.Intervals>,
                 taskAssignmentService: WorkerTaskAssignmentService.WorkerTaskAssignmentService,
                 taskProcessingService: WorkerTaskProcessingService.WorkerTaskProcessingService)
      ensures intervals == M.OfflineIntervals(managerIntervals)
      ensures this.taskAssignmentService == taskAssignmentService && this.taskProcessingService == taskProcessingService
    {
      intervals := M.OfflineIntervals(managerIntervals);
      this.taskAssignmentService := taskAssignmentService;
      this.taskProcessingService := taskProcessingService;
    }

    /** What the handlers read besides the save. */
    function Env(cat: Catalog, guid: nat -> string, now: int): M.Env
      reads taskProcessingService.entityService.plotService, taskAssignmentService.planting.plotService
    {
      M.Env(cat, taskProcessingService.entityService.plotService.Cache(), taskAssignmentService.planting.plotService.Cache(), guid, now)
    }

    /**
     * SimulateOfflineTime: nothing for a non-positive offline time; otherwise
     * every event of the sorted timeline is handled in turn and the result
     * reports the offline time and the counted tasks.
     */
    method SimulateOfflineTime(game: GameSaveData.GameSaveData?, offlineSeconds: int, cat: Catalog, guid: nat -> string, now: int,
                               ghost start: Nullable<GameState.GameState>, ghost env: M.Env)
      returns (result: OfflineSimulationResult)
      requires M.Positive(intervals)
      requires start == if game == null then Null else Some(game.State())
      requires env == Env(cat, guid, now)
      modifies if game == null then {} else {game, game.player}
      ensures game != null ==> game.player == old(game.player)
      ensures var r := M.SimulateOfflineTime(start, env, intervals, offlineSeconds);
              result == r.1 && (game != null ==> Some(game.State()) == r.0)
    {
      if offlineSeconds <= 0 {
        return DefaultResult();
      }
      result := DefaultResult().(totalOfflineTime := offlineSeconds, eventsProcessed := Some([]));
      var events := CreateEventTimeline(offlineSeconds, intervals.worker, intervals.task, intervals.entity);
      var ordered := OrderByTimestamp(events);
      var tally := Tally(0, 0);
      var k := 0;
      while k < |ordered|
        invariant 0 <= k <= |ordered|
        invariant game != null ==> game.player == old(game.player)
        invariant game == null ==> tally == Tally(0, 0)
        invariant game != null ==> (game.State(), tally) == M.Replay(start.value, env, intervals, ordered[..k], Tally(0, 0))
        invariant Env(cat, guid, now) == env
      {
        if game != null {
          M.ReplayStep(start.value, env, intervals, ordered, k, Tally(0, 0));
        }
        tally := ProcessOfflineEvent(game, ordered[k], tally, cat, guid, now, env);
        k := k + 1;
      }
      assert ordered[..k] == ordered;
      if game != null {
        result := result.(tasksCompleted := tally.tasksCompleted, tasksAssigned := tally.tasksAssigned);
      }
    }

    /** ProcessOfflineEvent: dispatch on the event type; env is what the handlers read besides the save. */
    method ProcessOfflineEvent(game: GameSaveData.GameSaveData?, eventData: OfflineEvent, tally: Tally,
                               cat: Catalog, guid: nat -> string, now: int, ghost env: M.Env) returns (out: Tally)
      requires env == Env(cat, guid, now)
      modifies if game == null then {} else {game, game.player}
      ensures game != null ==> game.player == old(game.player)
      ensures game == null ==> out == tally
      ensures game != null ==>
                var r := M.ProcessOfflineEvent(old(game.State()), env, intervals, eventData, tally);
                game.State() == r.0 && out == r.1
      ensures unchanged(taskProcessingService.entityService.plotService, taskAssignmentService.planting.plotService)
    {
      match eventData.eventType {
        case WorkerUpdate => out := ProcessWorkerUpdateEvent(game, eventData, tally, cat, guid, now, env);
        case TaskAssignment => out := ProcessTaskAssignmentEvent(game, eventData, tally, cat, guid, now, env);
        case EntityUpdate => out := ProcessEntityUpdateEvent(game, eventData, tally, cat, now, env);
      }
    }

    /**
     * ProcessWorkerUpdateEvent: the first foreach updates every busy worker
     * and collects the real completions, the second processes each of them
     * if its worker is found, and the busy count is resynced.
     */
    method ProcessWorkerUpdateEvent(game: GameSaveData.GameSaveData?, eventData: OfflineEvent, tally: Tally,
                                    cat: Catalog, guid: nat -> string, now: int, ghost env: M.Env)
      returns (out: Tally)
      requires env == Env(cat, guid, now)
      requires eventData.eventType == WorkerUpdate
      modifies if game == null then {} else {game, game.player}
      ensures game != null ==> game.player == old(game.player)
      ensures game == null ==> out == tally
      ensures game != null ==>
                var r := M.WorkerEvent(old(game.State()), env, intervals.worker as real);
                game.State() == r.0 && out == tally.(tasksCompleted := tally.tasksCompleted + r.1)
      ensures unchanged(taskProcessingService.entityService.plotService, taskAssignmentService.planting.plotService)
      ensures game != null ==>
                var r := M.ProcessOfflineEvent(old(game.State()), env, intervals, eventData, tally);
                game.State() == r.0 && out == r.1
    {
      if game != null {
        M.ProcessOfflineEventCases(game.State(), env, intervals, eventData, tally);
      }
      if game == null {
        return tally;
      }
      ghost var start := game.State();
      var deltaTime := intervals.worker as real;
      var completedTasks := CollectCompletions(game, deltaTime, now);
      ghost var advanced := game.State();
      assert advanced == start.(workers := M.AdvancedWorkers(start.workers, deltaTime, now));
      assert completedTasks == M.Completions(start.workers, deltaTime, now);
      out := tally.(tasksCompleted := tally.tasksCompleted + |completedTasks|);
      ProcessCompletions(game, completedTasks, cat, guid, now);
      ghost var processed := game.State();
      assert Env(cat, guid, now) == env;
      assert processed == M.ProcessResults(advanced, env, completedTasks);
      var _ := WorkerService.UpdateWorkerCounts(game);
      assert game.State() == GameState.SyncBusyWorkers(processed);
      assert Env(cat, guid, now) == env;
      assert M.WorkerEvent(start, env, deltaTime) == (GameState.SyncBusyWorkers(processed), |completedTasks|);
    }

    /** The first foreach: every busy worker works for dt; the real completions are collected in order. */
    static method CollectCompletions(game: GameSaveData.GameSaveData, deltaTime: real, now: int)
      returns (completedTasks: seq<WorkerLifecycle.WorkerTaskResult>)
      modifies game
      ensures game.player == old(game.player)
      ensures game.State() == old(game.State()).(workers := M.AdvancedWorkers(old(game.workers), deltaTime, now))
      ensures completedTasks == M.Completions(old(game.workers), deltaTime, now)
    {
      var workers;
      completedTasks, workers := UpdateEachWorker(game.workers, deltaTime, now);
      game.workers := workers;
    }

    /** The second foreach: each collected result is processed if its worker is still in the list. */
    method ProcessCompletions(game: GameSaveData.GameSaveData, completedTasks: seq<WorkerLifecycle.WorkerTaskResult>,
                              cat: Catalog, guid: nat -> string, now: int)
      modifies game, game.player
      ensures game.player == old(game.player)
      ensures game.State() == M.ProcessResults(old(game.State()), Env(cat, guid, now), completedTasks)
      ensures unchanged(taskProcessingService.entityService.plotService, taskAssignmentService.planting.plotService)
    {
      ghost var start := game.State();
      var k := 0;
      while k < |completedTasks|
        invariant 0 <= k <= |completedTasks|
        invariant game.player == old(game.player)
        invariant game.State() == M.ProcessResults(start, Env(cat, guid, now), completedTasks[..k])
      {
        ProcessIfFound(game, completedTasks[k], cat, guid, now);
        assert completedTasks[..k + 1][..k] == completedTasks[..k];
        k := k + 1;
      }
      assert completedTasks[..k] == completedTasks;
    }

    /** The second foreach's body: the result is processed if its worker is still in the list. */
    method ProcessIfFound(game: GameSaveData.GameSaveData, taskResult: WorkerLifecycle.WorkerTaskResult,
                          cat: Catalog, guid: nat -> string, now: int)
      modifies game, game.player
      ensures game.player == old(game.player)
      ensures game.State() == M.ProcessIfFound(old(game.State()), Env(cat, guid, now), taskResult)
    {
      var worker := GameState.GetWorker(game.State(), taskResult.workerID);
      if worker.Some? {
        taskProcessingService.ProcessCompletedWorkerTask(game, cat, taskResult, now);
      }
    }

    /** ProcessTaskAssignmentEvent: count the idle workers, assign, count again and add the drop. */
    method ProcessTaskAssignmentEvent(game: GameSaveData.GameSaveData?, eventData: OfflineEvent, tally: Tally,
                                      cat: Catalog, guid: nat -> string, now: int, ghost env: M.Env)
      returns (out: Tally)
      requires env == Env(cat, guid, now)
      requires eventData.eventType == TaskAssignment
      modifies if game == null then {} else {game, game.player}
      ensures game != null ==> game.player == old(game.player)
      ensures game == null ==> out == tally
      ensures game != null ==>
                var r := M.TaskEvent(old(game.State()), env);
                game.State() == r.0 && out == tally.(tasksAssigned := tally.tasksAssigned + r.1)
      ensures unchanged(taskProcessingService.entityService.plotService, taskAssignmentService.planting.plotService)
      ensures game != null ==>
                var r := M.ProcessOfflineEvent(old(game.State()), env, intervals, eventData, tally);
                game.State() == r.0 && out == r.1
    {
      if game != null {
        M.ProcessOfflineEventCases(game.State(), env, intervals, eventData, tally);
      }
      var idleWorkersBefore: int := PlayerDataService.GetAvailableWorkers(if game == null then Null else Some(game.State()));
      if game != null {
        M.IdleCountIsAvailableWorkers(game.State());
      }
      AssignmentRound(game, cat, guid, now);
      var idleWorkersAfter: int := PlayerDataService.GetAvailableWorkers(if game == null then Null else Some(game.State()));
      if game != null {
        M.IdleCountIsAvailableWorkers(game.State());
      }
      var newAssignments: int := idleWorkersBefore - idleWorkersAfter;
      out := tally;
      if newAssignments > 0 {
        out := tally.(tasksAssigned := tally.tasksAssigned + newAssignments);
      }
    }

    /** The assignment service's round; it leaves both plot caches as they were. */
    method AssignmentRound(game: GameSaveData.GameSaveData?, cat: Catalog, guid: nat -> string, now: int)
      modifies if game == null then {} else {game, game.player}
      ensures game != null ==> game.player == old(game.player)
      ensures game != null ==>
                Some(game.State()) == WorkerTaskAssignmentModel.AssignWorkerTasks(Some(old(game.State())), old(Env(cat, guid, now)).assignmentCache, cat, guid, now)
      ensures unchanged(taskProcessingService.entityService.plotService, taskAssignmentService.planting.plotService)
    {
      taskAssignmentService.AssignWorkerTasks(game, cat, guid, now);
    }

    /** ProcessEntityUpdateEvent: tick every entity by the entity interval, then remove the dead ones. */
    method ProcessEntityUpdateEvent(game: GameSaveData.GameSaveData?, eventData: OfflineEvent, tally: Tally,
                                    cat: Catalog, now: int, ghost env: M.Env)
      returns (out: Tally)
      requires eventData.eventType == EntityUpdate && env.cat == cat && env.now == now
      modifies if game == null then {} else {game, game.player}
      ensures out == tally
      ensures game != null ==> game.player == old(game.player)
      ensures game != null ==> game.State() == M.EntityEvent(old(game.State()), cat, intervals.entity as real, now)
      ensures unchanged(taskProcessingService.entityService.plotService, taskAssignmentService.planting.plotService)
      ensures game != null ==>
                var r := M.ProcessOfflineEvent(old(game.State()), env, intervals, eventData, tally);
                game.State() == r.0 && out == r.1
    {
      if game != null {
        M.ProcessOfflineEventCases(game.State(), env, intervals, eventData, tally);
      }
      out := tally;
      if game == null {
        return;
      }
      var deltaTime := intervals.entity as real;
      var entitiesToRemove, _ := FarmEntityUpdateManager.TickEntities(game, cat, deltaTime, now);
      FarmEntityUpdateManager.RemoveDeadEntities(game, entitiesToRemove);
    }
  }
}
