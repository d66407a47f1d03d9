/**
 * What a finished worker task does to the save: a Harvest or a Milk task
 * harvests its target plot, if the target is a plot id and the plot still
 * has something to harvest; a Plant task and a failed result do nothing.
 */
module WorkerTaskProcessingModel {
  import opened Wrappers
  import opened Catalog
  import WorkerLifecycle
  import GameState
  import PlotCache
  import PlotEntityQueries
  import PlotEntityModel

  /**
   * ProcessWorkerHarvest (and ProcessWorkerMilk, which is the same code): a
   * target that is not a plot id, or a plot with nothing harvestable, leaves
   * the save alone.
   */
  function ProcessWorkerHarvest(s: GameState.GameState, cache: PlotCache.PlotCache, cat: Catalog,
                                target: WorkerLifecycle.TaskTarget, now: int): (r: GameState.GameState)
    ensures r.workers == s.workers && r.guidsIssued == s.guidsIssued
    ensures target.Null? || !PlotEntityQueries.PlotHasHarvestableEntities(s, target.value) ==> r == s
  {
    match target
    case Null => s
    case Some(plotID) =>
      if PlotEntityQueries.PlotHasHarvestableEntities(s, plotID) then PlotEntityModel.HarvestAllEntitiesOnPlot(s, cache, cat, plotID, now).1
      else s
  }

  /** ProcessCompletedWorkerTask: dispatch on the finished task. */
  function ProcessCompletedWorkerTask(s: GameState.GameState, cache: PlotCache.PlotCache, cat: Catalog,
                                      result: WorkerLifecycle.WorkerTaskResult, now: int): (r: GameState.GameState)
    ensures r.workers == s.workers && r.guidsIssued == s.guidsIssued
    ensures !result.success ==> r == s
    ensures result.completedTask == WorkerLifecycle.WorkerTask.Plant || result.completedTask == WorkerLifecycle.WorkerTask.None ==> r == s
  {
    if !result.success then s
    else match result.completedTask
      case Harvest => ProcessWorkerHarvest(s, cache, cat, result.targetInstanceID, now)
      case Plant => s
      case Milk => ProcessWorkerHarvest(s, cache, cat, result.targetInstanceID, now)
      case None => s
  }

  /**
   * A successful Harvest or Milk result targeting a plot is exactly the plot
   * harvest (which changes nothing when nothing there is harvestable); the
   * two tasks have the same effect.
   */
  lemma HarvestAndMilkBothHarvestThePlot(s: GameState.GameState, cache: PlotCache.PlotCache, cat: Catalog,
                                         workerID: string, plotID: int, now: int)
    ensures var harvested := PlotEntityModel.HarvestAllEntitiesOnPlot(s, cache, cat, plotID, now).1;
            var harvest := WorkerLifecycle.WorkerTaskResult(workerID, WorkerLifecycle.WorkerTask.Harvest, Some(plotID), true);
            var milk := WorkerLifecycle.WorkerTaskResult(workerID, WorkerLifecycle.WorkerTask.Milk, Some(plotID), true);
            ProcessCompletedWorkerTask(s, cache, cat, harvest, now) == ProcessCompletedWorkerTask(s, cache, cat, milk, now)
            && ProcessCompletedWorkerTask(s, cache, cat, harvest, now) == harvested
  {
  }

  /** A completion changes the save only when its target plot had something harvestable. */
  lemma CompletionChangesOnlyAHarvestablePlot(s: GameState.GameState, cache: PlotCache.PlotCache, cat: Catalog,
                                              result: WorkerLifecycle.WorkerTaskResult, now: int)
    requires ProcessCompletedWorkerTask(s, cache, cat, result, now) != s
    ensures result.success && result.targetInstanceID.Some?
    ensures result.completedTask == WorkerLifecycle.WorkerTask.Harvest || result.completedTask == WorkerLifecycle.WorkerTask.Milk
    ensures exists j :: 0 <= j < |s.entities| && s.entities[j].associatedPlotID == result.targetInstanceID.value
                                               && PlotEntityQueries.IsHarvestable(s.entities[j])
  {
  }
}
