/**
 * The worker offline simulation service as the object the game creates: a
 * while loop over the offline time that runs the worker updates and the
 * assignment rounds on the loaded save through the live services. Each
 * method is proved against WorkerOfflineSimulationModel, whose corrected
 * counters and worker time it follows.
 */
module WorkerOfflineSimulationService {
  import opened Wrappers
  import opened Catalog
  import WorkerLifecycle
  import GameState
  import GameSaveData
  import WorkerService
  import WorkerTaskProcessingService
  import WorkerTaskAssignmentService
  import WorkerTaskAssignmentModel
  import opened OfflineResult
  import E = OfflineEventModel
  import M = WorkerOfflineSimulationModel

  /** The idle workers the worker service lists are the ones IdleCount counts. */
  lemma IdleWorkersAreIdleCount(s: GameState.GameState)
    ensures |WorkerService.GetIdleWorkers(Some(s))| == E.IdleCount(s.workers)
  {
    E.IdleCountIsAvailableWorkers(s);
  }

  class WorkerOfflineSimulationService {
    const taskAssignmentService: WorkerTaskAssignmentService.WorkerTaskAssignmentService
    const taskProcessingService: WorkerTaskProcessingService.WorkerTaskProcessingService

    constructor (taskAssignmentService: WorkerTaskAssignmentService.WorkerTaskAssignmentService,
                 taskProcessingService: WorkerTaskProcessingService.WorkerTaskProcessingService)
      ensures this.taskAssignmentService == taskAssignmentService && this.taskProcessingService == taskProcessingService
    {
      this.taskAssignmentService := taskAssignmentService;
      this.taskProcessingService := taskProcessingService;
    }

    /** What the passes read besides the save. */
    function Env(cat: Catalog, guid: nat -> string, now: int): E.Env
      reads taskProcessingService.entityService.plotService, taskAssignmentService.planting.plotService
    {
      E.Env(cat, taskProcessingService.entityService.plotService.Cache(), taskAssignmentService.planting.plotService.Cache(), guid, now)
    }

    /**
     * SimulateWorkerActivities: for a non-positive offline time only the
     * offline time and an empty log; otherwise the loop from event to event
     * up to the offline time, then the final snapshot.
     */
    method SimulateWorkerActivities(game: GameSaveData.GameSaveData?, offlineSeconds: int,
                                    workerUpdateInterval: int, taskAssignmentInterval: int,
                                    cat: Catalog, guid: nat -> string, now: int)
      returns (result: OfflineSimulationResult)
      requires workerUpdateInterval > 0 && taskAssignmentInterval > 0
      modifies if game == null then {} else {game, game.player}
      ensures game != null ==> game.player == old(game.player)
      ensures var r := M.SimulateWorkerActivities(if game == null then Null else Some(old(game.State())), Env(cat, guid, now),
                                                  workerUpdateInterval, taskAssignmentInterval, offlineSeconds);
              result == r.1 && (game != null ==> Some(game.State()) == r.0)
    {
      result := DefaultResult().(totalOfflineTime := offlineSeconds, eventsProcessed := Some([]));
      if offlineSeconds <= 0 {
        return;
      }
      ghost var start := if game == null then Null else Some(game.State());
      ghost var env := Env(cat, guid, now);
      var tally, log := RunLoop(game, offlineSeconds, workerUpdateInterval, taskAssignmentInterval, cat, guid, now, env);
      result := result.(tasksCompleted := tally.tasksCompleted, tasksAssigned := tally.tasksAssigned,
                        eventsProcessed := Some(log),
                        finalWorkerState := M.Snapshot(if game == null then Null else Some(game.State())));
    }

    /** The while loop from time 0 to the offline time: the passes of the schedule, one after another. */
    method RunLoop(game: GameSaveData.GameSaveData?, offlineSeconds: int, workerUpdateInterval: int, taskAssignmentInterval: int,
                   cat: Catalog, guid: nat -> string, now: int, ghost env: E.Env)
      returns (tally: Tally, log: seq<OfflineWorkerEvent>)
      requires offlineSeconds > 0 && workerUpdateInterval > 0 && taskAssignmentInterval > 0
      requires env == Env(cat, guid, now)
      modifies if game == null then {} else {game, game.player}
      ensures game != null ==> game.player == old(game.player)
      ensures game == null ==> tally == Tally(0, 0) && log == []
      ensures game != null ==>
                var p := M.Run(M.Progress(old(game.State()), Tally(0, 0), []), env, workerUpdateInterval,
                               M.Schedule(offlineSeconds, workerUpdateInterval, taskAssignmentInterval));
                game.State() == p.save && tally == p.tally && log == p.log
    {
      ghost var start := if game == null then Null else Some(game.State());
      ghost var done: seq<M.Chunk> := [];
      tally := Tally(0, 0);
      log := [];
      var currentTime := 0;
      var nextWorkerUpdate := workerUpdateInterval;
      var nextTaskAssignment := taskAssignmentInterval;
      while currentTime < offlineSeconds
        invariant currentTime <= offlineSeconds
        invariant currentTime < nextWorkerUpdate && currentTime < nextTaskAssignment
        invariant M.Schedule(offlineSeconds, workerUpdateInterval, taskAssignmentInterval)
                  == done + M.Chunks(offlineSeconds, workerUpdateInterval, taskAssignmentInterval,
                                     currentTime, nextWorkerUpdate, nextTaskAssignment)
        invariant game != null ==> game.player == old(game.player)
        invariant game == null ==> tally == Tally(0, 0) && log == []
        invariant game != null ==>
                    var p := M.Run(M.Progress(start.value, Tally(0, 0), []), env, workerUpdateInterval, done);
                    game.State() == p.save && tally == p.tally && log == p.log
        invariant Env(cat, guid, now) == env
        decreases offlineSeconds - currentTime
      {
        currentTime, nextWorkerUpdate, nextTaskAssignment, tally, log, done :=
          RunPass(game, offlineSeconds, workerUpdateInterval, taskAssignmentInterval,
                  currentTime, nextWorkerUpdate, nextTaskAssignment, tally, log, cat, guid, now, env, start, done);
      }
      assert done == M.Schedule(offlineSeconds, workerUpdateInterval, taskAssignmentInterval);
    }

    /**
     * One turn of the while loop: the clock moves to the next pass of the
     * schedule, and the run over the passes done so far is extended by it.
     */
    method RunPass(game: GameSaveData.GameSaveData?, offlineSeconds: int, workerUpdateInterval: int, taskAssignmentInterval: int,
                   currentTime: int, nextWorkerUpdate: int, nextTaskAssignment: int,
                   tally: Tally, log: seq<OfflineWorkerEvent>, cat: Catalog, guid: nat -> string, now: int,
                   ghost env: E.Env, ghost start: Nullable<GameState.GameState>, ghost done: seq<M.Chunk>)
      returns (currentTime': int, nextWorkerUpdate': int, nextTaskAssignment': int,
               tally': Tally, log': seq<OfflineWorkerEvent>, ghost done': seq<M.Chunk>)
      requires workerUpdateInterval > 0 && taskAssignmentInterval > 0
      requires currentTime < nextWorkerUpdate && currentTime < nextTaskAssignment && currentTime < offlineSeconds
      requires M.Schedule(offlineSeconds, workerUpdateInterval, taskAssignmentInterval)
               == done + M.Chunks(offlineSeconds, workerUpdateInterval, taskAssignmentInterval,
                                  currentTime, nextWorkerUpdate, nextTaskAssignment)
      requires env == Env(cat, guid, now)
      requires game == null ==> tally == Tally(0, 0) && log == []
      requires game != null ==> start.Some?
      requires game != null ==>
                 var p := M.Run(M.Progress(start.value, Tally(0, 0), []), env, workerUpdateInterval, done);
                 game.State() == p.save && tally == p.tally && log == p.log
      modifies if game == null then {} else {game, game.player}
      ensures currentTime < currentTime' <= offlineSeconds
      ensures currentTime' < nextWorkerUpdate' && currentTime' < nextTaskAssignment'
      ensures M.Schedule(offlineSeconds, workerUpdateInterval, taskAssignmentInterval)
              == done' + M.Chunks(offlineSeconds, workerUpdateInterval, taskAssignmentInterval,
                                  currentTime', nextWorkerUpdate', nextTaskAssignment')
      ensures game != null ==> game.player == old(game.player)
      ensures env == Env(cat, guid, now)
      ensures game == null ==> tally' == Tally(0, 0) && log' == []
      ensures game != null ==>
                var p := M.Run(M.Progress(start.value, Tally(0, 0), []), env, workerUpdateInterval, done');
                game.State() == p.save && tally' == p.tally && log' == p.log
    {
      var chunk;
      chunk, nextWorkerUpdate', nextTaskAssignment' := NextPass(offlineSeconds, workerUpdateInterval, taskAssignmentInterval,
                                                                currentTime, nextWorkerUpdate, nextTaskAssignment);
      if game != null {
        M.RunStep(M.Progress(start.value, Tally(0, 0), []), env, workerUpdateInterval, done, chunk);
      }
      tally', log' := ProcessChunk(game, chunk, workerUpdateInterval, tally, log, cat, guid, now, env);
      currentTime' := chunk.time;
      done' := done + [chunk];
    }

    /**
     * The loop's clock: the next event time is the earlier due time but not
     * past the offline time, deltaTime is the time since the previous event,
     * and a process that is due gets its next due time one interval later.
     */
    static method NextPass(offlineSeconds: int, workerUpdateInterval: int, taskAssignmentInterval: int,
                           currentTime: int, nextWorkerUpdate: int, nextTaskAssignment: int)
      returns (chunk: M.Chunk, nextWorkerUpdate': int, nextTaskAssignment': int)
      requires workerUpdateInterval > 0 && taskAssignmentInterval > 0
      requires currentTime < nextWorkerUpdate && currentTime < nextTaskAssignment && currentTime < offlineSeconds
      ensures currentTime < chunk.time <= offlineSeconds
      ensures chunk.time < nextWorkerUpdate' && chunk.time < nextTaskAssignment'
      ensures M.Chunks(offlineSeconds, workerUpdateInterval, taskAssignmentInterval, currentTime, nextWorkerUpdate, nextTaskAssignment)
              == [chunk] + M.Chunks(offlineSeconds, workerUpdateInterval, taskAssignmentInterval,
                                    chunk.time, nextWorkerUpdate', nextTaskAssignment')
    {
      var nextEventTime := M.Min(M.Min(nextWorkerUpdate, nextTaskAssignment), offlineSeconds);
      var deltaTime := nextEventTime - currentTime;
      chunk := M.Chunk(nextEventTime, deltaTime, nextEventTime >= nextWorkerUpdate, nextEventTime >= nextTaskAssignment);
      nextWorkerUpdate' := if chunk.workerUpdate then nextWorkerUpdate + workerUpdateInterval else nextWorkerUpdate;
      nextTaskAssignment' := if chunk.taskAssignment then nextTaskAssignment + taskAssignmentInterval else nextTaskAssignment;
    }

    /**
     * One pass of the loop: the worker update if due, given the worker
     * interval, then the assignment round if due.
     */
    method ProcessChunk(game: GameSaveData.GameSaveData?, chunk: M.Chunk, workerUpdateInterval: int,
                        tally: Tally, log: seq<OfflineWorkerEvent>,
                        cat: Catalog, guid: nat -> string, now: int, ghost env: E.Env)
      returns (tally': Tally, log': seq<OfflineWorkerEvent>)
      requires env == Env(cat, guid, now)
      modifies if game == null then {} else {game, game.player}
      ensures game != null ==> game.player == old(game.player)
      ensures game == null ==> tally' == tally && log' == log
      ensures game != null ==>
                var p := M.ChunkStep(M.Progress(old(game.State()), tally, log), env, workerUpdateInterval, chunk);
                game.State() == p.save && tally' == p.tally && log' == p.log
      ensures unchanged(taskProcessingService.entityService.plotService, taskAssignmentService.planting.plotService)
      ensures env == Env(cat, guid, now)
    {
      tally', log' := tally, log;
      if chunk.workerUpdate {
        tally', log' := ProcessWorkerUpdates(game, workerUpdateInterval as real, chunk.time, tally', log', cat, now, env);
      }
      if chunk.taskAssignment {
        tally', log' := ProcessTaskAssignments(game, chunk.time, tally', log', cat, guid, now, env);
      }
    }

    /**
     * ProcessWorkerUpdates: nothing without game data; otherwise each busy
     * worker works for deltaTime, and each real completion is processed at
     * once, logged and counted.
     */
    method ProcessWorkerUpdates(game: GameSaveData.GameSaveData?, deltaTime: real, currentTime: int,
                                tally: Tally, log: seq<OfflineWorkerEvent>, cat: Catalog, now: int, ghost env: E.Env)
      returns (tally': Tally, log': seq<OfflineWorkerEvent>)
      requires env.cat == cat && env.now == now && env.processingCache == taskProcessingService.entityService.plotService.Cache()
      modifies if game == null then {} else {game, game.player}
      ensures game != null ==> game.player == old(game.player)
      ensures game == null ==> tally' == tally && log' == log
      ensures game != null ==>
                var p := M.WorkerUpdates(M.Progress(old(game.State()), tally, log), env, deltaTime, currentTime);
                game.State() == p.save && tally' == p.tally && log' == p.log
      ensures unchanged(taskProcessingService.entityService.plotService, taskAssignmentService.planting.plotService)
    {
      tally', log' := tally, log;
      if game == null {
        return;
      }
      var logged := UpdateEachWorker(game, deltaTime, currentTime, cat, now, env);
      log' := log + logged;
      tally' := tally.(tasksCompleted := tally.tasksCompleted + |logged|);
    }

    /** The foreach over the workers: the events of the real completions, in worker order. */
    method UpdateEachWorker(game: GameSaveData.GameSaveData, deltaTime: real, currentTime: int, cat: Catalog, now: int, ghost env: E.Env)
      returns (logged: seq<OfflineWorkerEvent>)
      requires env.cat == cat && env.now == now && env.processingCache == taskProcessingService.entityService.plotService.Cache()
      modifies game, game.player
      ensures game.player == old(game.player)
      ensures var r := M.WorkerPass(old(game.State()), env, deltaTime, currentTime, |old(game.workers)|);
              game.State() == r.0 && logged == r.1
      ensures unchanged(taskProcessingService.entityService.plotService, taskAssignmentService.planting.plotService)
    {
      ghost var start := game.State();
      var n := |game.workers|;
      logged := [];
      var i := 0;
      while i < n
        invariant 0 <= i <= n == |start.workers|
        invariant game.player == old(game.player)
        invariant env.processingCache == taskProcessingService.entityService.plotService.Cache()
        invariant (game.State(), logged) == M.WorkerPass(start, env, deltaTime, currentTime, i)
      {
        logged := UpdateWorkerInPass(game, i, logged, deltaTime, currentTime, cat, now, env, start);
        i := i + 1;
      }
    }

    /** One turn of the foreach: worker i is updated and its event, if any, is appended to the log so far. */
    method UpdateWorkerInPass(game: GameSaveData.GameSaveData, i: nat, logged: seq<OfflineWorkerEvent>, deltaTime: real, currentTime: int,
                    cat: Catalog, now: int, ghost env: E.Env, ghost start: GameState.GameState)
      returns (logged': seq<OfflineWorkerEvent>)
      requires i < |start.workers|
      requires env.cat == cat && env.now == now && env.processingCache == taskProcessingService.entityService.plotService.Cache()
      requires (game.State(), logged) == M.WorkerPass(start, env, deltaTime, currentTime, i)
      modifies game, game.player
      ensures game.player == old(game.player)
      ensures env.processingCache == taskProcessingService.entityService.plotService.Cache()
      ensures (game.State(), logged') == M.WorkerPass(start, env, deltaTime, currentTime, i + 1)
    {
      var events := UpdateOneWorker(game, i, deltaTime, currentTime, cat, now, env);
      logged' := logged + events;
    }

    /** The foreach body for worker i: a busy worker works; a real completion is processed and returned as its event. */
    method UpdateOneWorker(game: GameSaveData.GameSaveData, i: nat, deltaTime: real, currentTime: int,
                           cat: Catalog, now: int, ghost env: E.Env)
      returns (logged: seq<OfflineWorkerEvent>)
      requires i < |game.workers|
      requires env.cat == cat && env.now == now && env.processingCache == taskProcessingService.entityService.plotService.Cache()
      modifies game, game.player
      ensures game.player == old(game.player)
      ensures var r := M.WorkerStep(old(game.State()), env, deltaTime, currentTime, i);
              game.State() == r.0 && logged == r.1
    {
      logged := [];
      var worker := game.workers[i];
      if WorkerLifecycle.IsBusy(worker) {
        var taskResult := WorkerLifecycle.UpdateTask(worker, deltaTime, now);
        game.workers := game.workers[i := taskResult.1];
        if taskResult.0.success && taskResult.0.completedTask != WorkerLifecycle.WorkerTask.None {
          taskProcessingService.ProcessCompletedWorkerTask(game, cat, taskResult.0, now);
          logged := [TaskCompleted(currentTime, worker.workerID, taskResult.0.completedTask, taskResult.0.targetInstanceID)];
        }
      }
    }

    /**
     * ProcessTaskAssignments: count the idle workers, run one assignment
     * round, count again; a positive drop is logged and added to tasksAssigned.
     */
    method ProcessTaskAssignments(game: GameSaveData.GameSaveData?, currentTime: int,
                                  tally: Tally, log: seq<OfflineWorkerEvent>,
                                  cat: Catalog, guid: nat -> string, now: int, ghost env: E.Env)
      returns (tally': Tally, log': seq<OfflineWorkerEvent>)
      requires env == Env(cat, guid, now)
      modifies if game == null then {} else {game, game.player}
      ensures game != null ==> game.player == old(game.player)
      ensures game == null ==> tally' == tally && log' == log
      ensures game != null ==>
                var p := M.TaskAssignments(M.Progress(old(game.State()), tally, log), env, currentTime);
                game.State() == p.save && tally' == p.tally && log' == p.log
      ensures unchanged(taskProcessingService.entityService.plotService, taskAssignmentService.planting.plotService)
    {
      var idleWorkersBefore: int := |WorkerService.GetIdleWorkers(if game == null then Null else Some(game.State()))|;
      if game != null {
        IdleWorkersAreIdleCount(game.State());
      }
      AssignmentRound(game, cat, guid, now);
      var idleWorkersAfter: int := |WorkerService.GetIdleWorkers(if game == null then Null else Some(game.State()))|;
      if game != null {
        IdleWorkersAreIdleCount(game.State());
      }
      var newAssignments: int := idleWorkersBefore - idleWorkersAfter;
      tally', log' := tally, log;
      if newAssignments > 0 {
        log' := log + [TaskAssigned(currentTime, AssignedDescription(newAssignments))];
        tally' := tally.(tasksAssigned := tally.tasksAssigned + newAssignments);
      }
    }

    /** The assignment service's round; it leaves both plot caches as they were. */
    method AssignmentRound(game: GameSaveData.GameSaveData?, cat: Catalog, guid: nat -> string, now: int)
      modifies if game == null then {} else {game, game.player}
      ensures game != null ==> game.player == old(game.player)
      ensures game != null ==>
                Some(game.State()) == WorkerTaskAssignmentModel.AssignWorkerTasks(Some(old(game.State())), old(Env(cat, guid, now)).assignmentCache, cat, guid, now)
      ensures unchanged(taskProcessingService.entityService.plotService, taskAssignmentService.planting.plotService)
    {
      taskAssignmentService.AssignWorkerTasks(game, cat, guid, now);
    }
  }
}
