/**
 * The planting service as the object the game keeps: it holds the plot
 * service and the plot entity service and plants on the loaded save in
 * place. Each method is specified by the PlotPlantingModel function of the
 * same name; the save is a non-null parameter.
 */
module PlotPlantingService {
  import opened Wrappers
  import opened GameEnums
  import opened Definitions
  import opened Catalog
  import PlotState
  import PlayerState
  import EntityLifecycle
  import GameState
  import GameSaveData
  import PlotCache
  import PlotService
  import PlotEntityService
  import PlotPlantingModel

  class PlotPlantingService {
    const plotService: PlotService.PlotService
    const entityService: PlotEntityService.PlotEntityService

    constructor (plotService: PlotService.PlotService, entityService: PlotEntityService.PlotEntityService)
      ensures this.plotService == plotService && this.entityService == entityService
    {
      this.plotService := plotService;
      this.entityService := entityService;
    }

    /**
     * PlantItemOnPlot: the four checks, the removal of the per-plot quantity,
     * then the for loop creating one entity per position, the first of which
     * occupies the plot.
     */
    method PlantItemOnPlot(game: GameSaveData.GameSaveData, cat: Catalog, guid: nat -> string,
                           plotID: int, itemID: ItemID, now: int) returns (result: PlotPlantingModel.PlantingResult)
      modifies game, game.player
      ensures game.player == old(game.player)
      ensures (result, game.State())
              == PlotPlantingModel.PlantItemOnPlot(old(game.State()), plotService.Cache(), cat, guid, plotID, itemID, now)
    {
      var plot := plotService.GetPlot(game.State(), plotID);
      if plot.Null? || !PlotState.IsEmpty(game.plots[plot.value]) {
        return PlotPlantingModel.Failure(PlotPlantingModel.PlotNotEmpty);
      }
      var itemDef := GetItem(cat, itemID);
      if itemDef.Null? || itemDef.value.growsIntoEntityID == EntityID.None {
        return PlotPlantingModel.Failure(PlotPlantingModel.CannotBePlanted);
      }
      var kind := itemDef.value.growsIntoEntityID;
      var entityDef := GetEntity(cat, kind);
      if entityDef.Null? {
        return PlotPlantingModel.Failure(PlotPlantingModel.InvalidEntityDefinition);
      }
      var requiredQuantity := entityDef.value.quantityPerPlot;
      if !game.player.HasItem(itemID, requiredQuantity) {
        return PlotPlantingModel.Failure(PlotPlantingModel.NotEnoughItems(requiredQuantity));
      }
      var removed := PayAndPlant(game, plot.value, guid, kind, plotID, entityDef, itemID, requiredQuantity, now);
      if !removed {
        return PlotPlantingModel.Failure(PlotPlantingModel.RemovalFailed);
      }
      return PlotPlantingModel.PlantingResult(true, "", plotID, kind, requiredQuantity);
    }

    /** The removal of the per-plot quantity and, when it goes through, the planting loop on the paid save. */
    method PayAndPlant(game: GameSaveData.GameSaveData, k: nat, guid: nat -> string, kind: EntityID, plotID: int,
                       entityDef: Nullable<EntityDefinition>, itemID: ItemID, requiredQuantity: int, now: int)
      returns (removed: bool)
      requires PlotPlantingModel.CachedAt(game.State(), k, plotID)
      modifies game, game.player
      ensures game.player == old(game.player)
      ensures var paid := PlayerState.RemoveItem(old(game.State()).player, itemID, requiredQuantity);
              removed == paid.0
              && game.State() == if removed then PlotPlantingModel.PlantLoop(old(game.State()).(player := paid.1), k, guid, kind, plotID,
                                                                             entityDef, PlotPlantingModel.Trips(requiredQuantity), now)
                                 else old(game.State())
    {
      removed := game.player.RemoveItem(itemID, requiredQuantity);
      if removed {
        PlantLoop(game, k, guid, kind, plotID, entityDef, requiredQuantity, now);
      }
    }

    /** The for loop of PlantItemOnPlot: requiredQuantity passes, each drawing an id and appending an entity at its position. */
    method PlantLoop(game: GameSaveData.GameSaveData, k: nat, guid: nat -> string, kind: EntityID, plotID: int,
                     entityDef: Nullable<EntityDefinition>, requiredQuantity: int, now: int)
      requires PlotPlantingModel.CachedAt(game.State(), k, plotID)
      modifies game
      ensures game.player == old(game.player)
      ensures game.State() == PlotPlantingModel.PlantLoop(old(game.State()), k, guid, kind, plotID, entityDef,
                                                           PlotPlantingModel.Trips(requiredQuantity), now)
    {
      ghost var start := game.State();
      var i := 0;
      while i < requiredQuantity
        invariant 0 <= i <= PlotPlantingModel.Trips(requiredQuantity)
        invariant game.player == old(game.player)
        invariant game.State() == PlotPlantingModel.PlantLoop(start, k, guid, kind, plotID, entityDef, i, now)
      {
        PlantPass(game, k, guid, kind, plotID, entityDef, i, now);
        i := i + 1;
      }
    }

    /** One pass of the for loop: a new entity at position i, which occupies the plot on the first pass. */
    method PlantPass(game: GameSaveData.GameSaveData, k: nat, guid: nat -> string, kind: EntityID, plotID: int,
                     entityDef: Nullable<EntityDefinition>, i: nat, now: int)
      requires PlotPlantingModel.CachedAt(game.State(), k, plotID)
      modifies game
      ensures game.player == old(game.player)
      ensures game.State() == PlotPlantingModel.PlantPass(old(game.State()), k, guid, kind, plotID, entityDef, i, now)
    {
      ghost var before := game.State();
      var newEntity := EntityLifecycle.NewEntity(guid(game.guidsIssued), kind, plotID, i, entityDef, now);
      game.guidsIssued := game.guidsIssued + 1;
      assert game.State() == before.(guidsIssued := before.guidsIssued + 1);
      game.AddFarmEntity(Some(newEntity));
      if i == 0 {
        entityService.WriteCachedPlot(game, k, game.plots[k].(plotState := PlotState.Occupied,
                                                               occupyingEntityInstanceID := newEntity.instanceID));
      }
    }

    /** PlantItemOnCurrentPlot: plant on the viewed plot, or fail when there is none. */
    method PlantItemOnCurrentPlot(game: GameSaveData.GameSaveData, cat: Catalog, guid: nat -> string,
                                  itemID: ItemID, now: int) returns (result: PlotPlantingModel.PlantingResult)
      requires plotService.navigation != null
      modifies game, game.player
      ensures game.player == old(game.player)
      ensures (result, game.State())
              == PlotPlantingModel.PlantItemOnCurrentPlot(old(game.State()), plotService.Cache(), plotService.navigation.currentPlotID,
                                                          cat, guid, itemID, now)
    {
      var currentPlot := PlotCache.GetCurrentPlot(plotService.Cache(), plotService.navigation.currentPlotID, game.State());
      if currentPlot.Null? {
        return PlotPlantingModel.Failure(PlotPlantingModel.NoCurrentPlot);
      }
      result := PlantItemOnPlot(game, cat, guid, game.plots[currentPlot.value].plotID, itemID, now);
    }
  }
}
