/**
 * WorkerTaskProcessingService as the object the game keeps. The plot
 * harvest goes through the plot entity service, which stands for the plot
 * manager the source delegates to; the save is a non-null parameter.
 */
module WorkerTaskProcessingService {
  import opened Wrappers
  import opened Catalog
  import WorkerLifecycle
  import GameSaveData
  import PlotEntityQueries
  import PlotEntityService
  import WorkerTaskProcessingModel

  class WorkerTaskProcessingService {
    const entityService: PlotEntityService.PlotEntityService

    constructor (entityService: PlotEntityService.PlotEntityService)
      ensures this.entityService == entityService
    {
      this.entityService := entityService;
    }

    /** ProcessCompletedWorkerTask: ignore a failed result, harvest for Harvest and Milk, nothing for Plant. */
    method ProcessCompletedWorkerTask(game: GameSaveData.GameSaveData, cat: Catalog, result: WorkerLifecycle.WorkerTaskResult, now: int)
      modifies game, game.player
      ensures game.player == old(game.player)
      ensures game.State() == WorkerTaskProcessingModel.ProcessCompletedWorkerTask(old(game.State()), entityService.plotService.Cache(),
                                                                                   cat, result, now)
    {
      if !result.success {
        return;
      }
      match result.completedTask {
        case Harvest => ProcessWorkerHarvest(game, cat, result.targetInstanceID, now);
        case Plant =>
        case Milk => ProcessWorkerHarvest(game, cat, result.targetInstanceID, now);
        case None =>
      }
    }

    /** ProcessWorkerHarvest and ProcessWorkerMilk: harvest the target plot if it parses and has something to harvest. */
    method ProcessWorkerHarvest(game: GameSaveData.GameSaveData, cat: Catalog, target: WorkerLifecycle.TaskTarget, now: int)
      modifies game, game.player
      ensures game.player == old(game.player)
      ensures game.State() == WorkerTaskProcessingModel.ProcessWorkerHarvest(old(game.State()), entityService.plotService.Cache(),
                                                                             cat, target, now)
    {
      if target.Some? && PlotEntityQueries.PlotHasHarvestableEntities(game.State(), target.value) {
        var _ := entityService.HarvestAllEntitiesOnPlot(game, cat, target.value, now);
      }
    }
  }
}
