/**
 * The worker update service as the object the game keeps: the per-tick
 * foreach over the save's workers. The update interval, which the source
 * reads from the game update manager, is a parameter.
 */
module WorkerUpdateService {
  import opened Wrappers
  import opened Catalog
  import WorkerLifecycle
  import GameSaveData
  import WorkerService
  import WorkerTaskProcessingService
  import WorkerUpdateModel

  class WorkerUpdateService {
    var taskProcessingService: WorkerTaskProcessingService.WorkerTaskProcessingService

    constructor (taskProcessingService: WorkerTaskProcessingService.WorkerTaskProcessingService)
      ensures this.taskProcessingService == taskProcessingService
    {
      this.taskProcessingService := taskProcessingService;
    }

    /** UpdateAllWorkers: without game data nothing happens. */
    method UpdateAllWorkers(game: GameSaveData.GameSaveData?, cat: Catalog, updateInterval: real, now: int)
      modifies if game == null then {} else {game, game.player}
      ensures game != null ==> game.player == old(game.player)
      ensures game != null ==>
                (Some(game.State())
                 == WorkerUpdateModel.UpdateAllWorkers(Some(old(game.State())), taskProcessingService.entityService.plotService.Cache(),
                                                       cat, updateInterval, now))
    {
      if game == null {
        return;
      }
      ghost var start := game.State();
      var workersUpdated := false;
      var i := 0;
      while i < |game.workers|
        invariant |game.workers| == |start.workers|
        invariant 0 <= i <= |game.workers|
        invariant game.player == old(game.player)
        invariant (game.State(), workersUpdated)
                  == WorkerUpdateModel.UpdatePass(start, taskProcessingService.entityService.plotService.Cache(), cat, updateInterval, now, i)
      {
        var worker := game.workers[i];
        if WorkerLifecycle.IsBusy(worker) {
          var previousState := worker.state;
          var out := WorkerLifecycle.UpdateTask(worker, updateInterval, now);
          game.workers := game.workers[i := out.1];
          if WorkerLifecycle.IsIdle(out.1) && previousState == WorkerLifecycle.Busy {
            taskProcessingService.ProcessCompletedWorkerTask(game, cat, out.0, now);
            workersUpdated := true;
          }
        }
        i := i + 1;
      }
      if workersUpdated {
        var _ := WorkerService.UpdateWorkerCounts(game);
      }
    }
  }
}
