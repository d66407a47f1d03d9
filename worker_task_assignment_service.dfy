/**
 * WorkerTaskAssignmentService as the object the game keeps: the foreach
 * loops of the automatic assignment over the idle workers and over the
 * plots, and the two manual assignments. The plot manager the source calls
 * into is the planting service it holds; the save is a parameter, null when
 * no game is loaded. Each method is specified by the WorkerTaskAssignmentModel
 * function of the same name.
 */
module WorkerTaskAssignmentService {
  import opened Wrappers
  import opened GameEnums
  import opened Catalog
  import Seqs
  import PlotState
  import WorkerLifecycle
  import GameState
  import GameSaveData
  import PlotEntityQueries
  import PlotPlantingModel
  import PlotPlantingService
  import WorkerService
  import M = WorkerTaskAssignmentModel

  class WorkerTaskAssignmentService {
    const planting: PlotPlantingService.PlotPlantingService

    constructor (planting: PlotPlantingService.PlotPlantingService)
      ensures this.planting == planting
    {
      this.planting := planting;
    }

    /** GetBestItemToPlant: the foreach over the player's inventory, in enumeration order. */
    method GetBestItemToPlant(game: GameSaveData.GameSaveData, cat: Catalog) returns (bestItem: ItemID)
      ensures bestItem == M.GetBestItemToPlant(game.State().player.inventory, cat)
    {
      var inventory := game.player.Value().inventory;
      var highestValue;
      bestItem, highestValue := BestItemAmong(AllItemIDs, inventory, cat);
    }

    /** The loop of GetBestItemToPlant over ids: the first held item of strictly greater positive product value. */
    method BestItemAmong(ids: seq<ItemID>, inventory: map<ItemID, int>, cat: Catalog) returns (bestItem: ItemID, highestValue: int)
      ensures (bestItem, highestValue) == M.BestItemFrom(ids, M.Weigh(inventory, cat), ItemID.None, 0)
    {
      ghost var weigh := M.Weigh(inventory, cat);
      bestItem := ItemID.None;
      highestValue := 0;
      var i := 0;
      while i < |ids|
        invariant 0 <= i <= |ids|
        invariant M.BestItemFrom(ids[i..], weigh, bestItem, highestValue) == M.BestItemFrom(ids, weigh, ItemID.None, 0)
      {
        var id := ids[i];
        assert ids[i..][1..] == ids[i + 1..];
        if id in inventory && inventory[id] > 0 {
          var totalValue := M.ProductValue(cat, id);
          if totalValue.Some? && totalValue.value > highestValue {
            highestValue := totalValue.value;
            bestItem := id;
          }
        }
        i := i + 1;
      }
    }

    /** The foreach of AssignHarvestTask over the plots, up to the first that passes the checks. */
    method FindHarvestPlot(game: GameSaveData.GameSaveData) returns (found: Nullable<nat>)
      ensures found == Seqs.FirstIndex(game.plots, M.HarvestTargetOf(game.State()))
    {
      found := Seqs.FindFirst(game.plots, M.HarvestTargetOf(game.State()));
    }

    /** AssignHarvestTask: the first plot that passes the checks gets the worker, with whatever task its first entity calls for. */
    method AssignHarvestTask(game: GameSaveData.GameSaveData, cat: Catalog, w: nat, now: int) returns (taken: bool)
      requires w < |game.workers|
      modifies game
      ensures game.player == old(game.player)
      ensures (taken, game.State()) == M.AssignHarvestTask(old(game.State()), cat, w, now)
    {
      var found := FindHarvestPlot(game);
      if found.Null? {
        return false;
      }
      var plotID := game.plots[found.value].plotID;
      var taskType := M.HarvestTaskType(game.State(), cat, plotID);
      AssignAt(game, cat, w, taskType, plotID, now);
      return true;
    }

    /** The foreach of AssignPlantTask over the plots, up to the first that passes the checks. */
    method FindPlantPlot(game: GameSaveData.GameSaveData, cat: Catalog) returns (found: Nullable<nat>)
      ensures found == M.PlantTarget(game.State(), planting.plotService.Cache(), cat)
    {
      found := Seqs.FindFirst(game.plots, M.PlantTargetOf(game.State(), planting.plotService.Cache(), cat));
    }

    /**
     * AssignPlantTask: the first plot that passes the checks gets the worker
     * on the Plant task, and the best item is planted there. The planting
     * cannot fail on such a plot (PlantingOnTargetSucceeds), so the source's
     * revert and move to the next plot is not reached.
     */
    method AssignPlantTask(game: GameSaveData.GameSaveData, cat: Catalog, guid: nat -> string, w: nat, now: int)
      returns (taken: bool)
      requires w < |game.workers|
      modifies game, game.player
      ensures game.player == old(game.player)
      ensures (taken, game.State()) == M.AssignPlantTask(old(game.State()), planting.plotService.Cache(), cat, guid, w, now)
    {
      var found := FindPlantPlot(game, cat);
      if found.Null? {
        return false;
      }
      PlantOn(game, cat, guid, w, game.plots[found.value].plotID, now);
      return true;
    }

    /** The worker is given the Plant task on the plot and the best item is planted there through the plot manager. */
    method PlantOn(game: GameSaveData.GameSaveData, cat: Catalog, guid: nat -> string, w: nat, plotID: int, now: int)
      requires w < |game.workers|
      modifies game, game.player
      ensures game.player == old(game.player)
      ensures game.State() == M.PlantOn(old(game.State()), planting.plotService.Cache(), cat, guid, w, plotID, now).1
    {
      var itemToPlant := GetBestItemToPlant(game, cat);
      AssignAt(game, cat, w, WorkerLifecycle.WorkerTask.Plant, plotID, now);
      var _ := planting.PlantItemOnPlot(game, cat, guid, plotID, itemToPlant, now);
    }

    /**
     * The attempt a foreach of AssignWorkerTasks makes on one worker, at its
     * priority; offer is the model's answer to it.
     */
    method TryAssign(game: GameSaveData.GameSaveData, cat: Catalog, guid: nat -> string, w: nat, harvest: bool, now: int,
                     ghost offer: M.Attempt) returns (taken: bool)
      requires w < |game.workers|
      requires M.Implements(offer, planting.plotService.Cache(), cat, guid, harvest, now)
      modifies game, game.player
      ensures game.player == old(game.player) && |game.workers| == old(|game.workers|)
      ensures (taken, game.State()) == offer(old(game.State()), w)
    {
      ghost var answer := M.OfferResult(game.State(), planting.plotService.Cache(), cat, guid, w, harvest, now);
      if harvest {
        taken := AssignHarvestTask(game, cat, w, now);
      } else {
        taken := AssignPlantTask(game, cat, guid, w, now);
      }
    }

    /**
     * One foreach of AssignWorkerTasks over a snapshot of the idle list: a
     * worker that takes work leaves the list, the busy count is resynced,
     * and the loop stops once the list is empty.
     */
    method AssignPass(game: GameSaveData.GameSaveData, cat: Catalog, guid: nat -> string, todo: seq<nat>, idle: seq<nat>,
                      harvest: bool, now: int, ghost offer: M.Attempt) returns (left: seq<nat>)
      requires forall m :: 0 <= m < |todo| ==> todo[m] < |game.workers|
      requires M.Implements(offer, planting.plotService.Cache(), cat, guid, harvest, now)
      modifies game, game.player
      ensures game.player == old(game.player) && |game.workers| == old(|game.workers|)
      ensures (game.State(), left) == M.AssignPass(old(game.State()), offer, todo, idle)
    {
      ghost var result := M.AssignPass(game.State(), offer, todo, idle);
      ghost var n := |game.workers|;
      left := idle;
      var i := 0;
      while i < |todo|
        invariant 0 <= i <= |todo|
        invariant |game.workers| == n
        invariant game.player == old(game.player)
        invariant M.AssignPass(game.State(), offer, todo[i..], left) == result
      {
        var w := todo[i];
        ghost var before := game.State();
        assert todo[i..][1..] == todo[i + 1..];
        var taken := TryAssign(game, cat, guid, w, harvest, now, offer);
        M.AssignPassUnrolls(before, offer, todo[i..], left, taken, game.State());
        if taken {
          left := M.RemoveValue(left, w);
          var _ := WorkerService.UpdateWorkerCounts(game);
          if |left| == 0 {
            break;
          }
        }
        i := i + 1;
      }
    }

    /** AssignWorkerTasks: with a loaded save and an idle worker, the harvest foreach, then the plant foreach. */
    method AssignWorkerTasks(game: GameSaveData.GameSaveData?, cat: Catalog, guid: nat -> string, now: int)
      modifies if game == null then {} else {game, game.player}
      ensures game != null ==> game.player == old(game.player)
      ensures game != null ==>
                Some(game.State()) == M.AssignWorkerTasks(Some(old(game.State())), planting.plotService.Cache(), cat, guid, now)
    {
      if game == null {
        return;
      }
      ghost var cache := planting.plotService.Cache();
      var idleWorkers := M.IdleIndices(game.State());
      if |idleWorkers| == 0 {
        return;
      }
      ghost var harvestOffer := M.Offer(cache, cat, guid, true, now);
      ghost var plantOffer := M.Offer(cache, cat, guid, false, now);
      M.OfferImplements(cache, cat, guid, true, now);
      M.OfferImplements(cache, cat, guid, false, now);
      ghost var snapshot := idleWorkers;
      idleWorkers := AssignPass(game, cat, guid, idleWorkers, idleWorkers, true, now, harvestOffer);
      assert forall m :: 0 <= m < |idleWorkers| ==> idleWorkers[m] in snapshot;
      idleWorkers := AssignPass(game, cat, guid, idleWorkers, idleWorkers, false, now, plantOffer);
    }

    /** AssignWorkerToHarvestPlot: the first idle worker is sent to the plot, without the one-worker check. */
    method AssignWorkerToHarvestPlot(game: GameSaveData.GameSaveData?, cat: Catalog, plotID: int, now: int) returns (ok: bool)
      modifies if game == null then {} else {game, game.player}
      ensures game != null ==> game.player == old(game.player)
      ensures game == null ==> !ok
      ensures game != null ==> (ok, Some(game.State())) == M.AssignWorkerToHarvestPlot(Some(old(game.State())), cat, plotID, now)
    {
      if game == null {
        return false;
      }
      var worker := Seqs.FirstIndex(game.workers, WorkerLifecycle.IsIdle);
      if worker.Null? || !PlotEntityQueries.PlotHasHarvestableEntities(game.State(), plotID) {
        return false;
      }
      var firstEntity := PlotEntityQueries.GetPlotEntity(game.State(), plotID);
      if firstEntity.Some? {
        var taskType := M.HarvestTaskType(game.State(), cat, plotID);
        AssignAndSync(game, cat, worker.value, taskType, plotID, now);
        return true;
      }
      return false;
    }

    /**
     * AssignWorkerToPlant: the first idle worker, the CanPlantOnPlot guard
     * (which throws on an unknown item), the Plant task, the planting, and
     * the revert when the planting fails.
     */
    method AssignWorkerToPlant(game: GameSaveData.GameSaveData?, cat: Catalog, guid: nat -> string, plotID: int,
                               itemID: ItemID, now: int) returns (outcome: PlotPlantingModel.Outcome)
      modifies if game == null then {} else {game, game.player}
      ensures game != null ==> game.player == old(game.player)
      ensures game == null ==> outcome == PlotPlantingModel.Returns(false)
      ensures game != null ==>
                (outcome, Some(game.State()))
                == M.AssignWorkerToPlant(Some(old(game.State())), planting.plotService.Cache(), cat, guid, plotID, itemID, now)
    {
      if game == null {
        return PlotPlantingModel.Returns(false);
      }
      var worker := Seqs.FirstIndex(game.workers, WorkerLifecycle.IsIdle);
      if worker.Null? {
        return PlotPlantingModel.Returns(false);
      }
      outcome := GuardedPlant(game, cat, guid, worker.value, plotID, itemID, now);
    }

    /** The CanPlantOnPlot guard, then the planting with worker w when it answers true. */
    method GuardedPlant(game: GameSaveData.GameSaveData, cat: Catalog, guid: nat -> string, w: nat, plotID: int,
                        itemID: ItemID, now: int) returns (outcome: PlotPlantingModel.Outcome)
      requires w < |game.workers|
      modifies game, game.player
      ensures game.player == old(game.player)
      ensures (outcome, game.State()) == M.GuardedPlant(old(game.State()), planting.plotService.Cache(), cat, guid, w, plotID, itemID, now)
    {
      var guard := PlotPlantingModel.CanPlantOnPlot(game.State(), planting.plotService.Cache(), cat, plotID, itemID);
      if guard.ThrowsNullReference? {
        return guard;
      }
      if !guard.value {
        return PlotPlantingModel.Returns(false);
      }
      outcome := PlantWithWorker(game, cat, guid, w, plotID, itemID, now);
    }

    /** The Plant task for worker w, the busy-count sync, the planting, and the revert when the planting fails. */
    method PlantWithWorker(game: GameSaveData.GameSaveData, cat: Catalog, guid: nat -> string, w: nat, plotID: int,
                           itemID: ItemID, now: int) returns (outcome: PlotPlantingModel.Outcome)
      requires w < |game.workers|
      modifies game, game.player
      ensures game.player == old(game.player)
      ensures (outcome, game.State()) == M.PlantWithWorker(old(game.State()), planting.plotService.Cache(), cat, guid, w, plotID, itemID, now)
    {
      AssignAndSync(game, cat, w, WorkerLifecycle.WorkerTask.Plant, plotID, now);
      var result := planting.PlantItemOnPlot(game, cat, guid, plotID, itemID, now);
      if result.success {
        return PlotPlantingModel.Returns(true);
      }
      CancelPlanting(game, w, now);
      return PlotPlantingModel.Returns(false);
    }

    /** worker.AssignTask(task, plotID) on the worker at position w. */
    method AssignAt(game: GameSaveData.GameSaveData, cat: Catalog, w: nat, task: WorkerLifecycle.WorkerTask, plotID: int, now: int)
      requires w < |game.workers|
      modifies game
      ensures game.player == old(game.player)
      ensures game.State() == M.AssignWorker(old(game.State()), w, task, plotID, cat, now)
    {
      game.workers := game.workers[w := WorkerLifecycle.AssignTask(game.workers[w], task, Some(plotID), cat.settings, now)];
    }

    /** worker.AssignTask(task, plotID) and the busy-count sync. */
    method AssignAndSync(game: GameSaveData.GameSaveData, cat: Catalog, w: nat, task: WorkerLifecycle.WorkerTask, plotID: int, now: int)
      requires w < |game.workers|
      modifies game, game.player
      ensures game.player == old(game.player)
      ensures game.State() == GameState.SyncBusyWorkers(M.AssignWorker(old(game.State()), w, task, plotID, cat, now))
    {
      AssignAt(game, cat, w, task, plotID, now);
      var _ := WorkerService.UpdateWorkerCounts(game);
    }

    /** The revert after a failed planting: worker.CancelTask() and the busy-count sync. */
    method CancelPlanting(game: GameSaveData.GameSaveData, w: nat, now: int)
      requires w < |game.workers|
      modifies game, game.player
      ensures game.player == old(game.player)
      ensures game.State() == GameState.SyncBusyWorkers(M.CancelWorker(old(game.State()), w, now))
    {
      game.workers := game.workers[w := WorkerLifecycle.CancelTask(game.workers[w], now)];
      var _ := WorkerService.UpdateWorkerCounts(game);
    }
  }
}
