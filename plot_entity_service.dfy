/**
 * The plot entity service as the object the game keeps: it holds the plot
 * service and edits the loaded save in place, through the provider's
 * write-back operations. Each method is specified by the PlotEntityModel
 * function of the same name. GameDataManager.Instance and its loaded save
 * are taken to be present, so the save is a non-null parameter.
 */
module PlotEntityService {
  import opened Wrappers
  import opened GameEnums
  import opened Catalog
  import PlotState
  import EntityLifecycle
  import GameState
  import GameSaveData
  import GameDataManager
  import GameDataProvider
  import PlotService
  import PlotCache
  import PlotEntityQueries
  import PlotEntityValidator
  import PlotUtilities
  import PlotEntityModel

  class PlotEntityService {
    const plotService: PlotService.PlotService

    constructor (plotService: PlotService.PlotService)
      ensures this.plotService == plotService
    {
      this.plotService := plotService;
    }

    /** The cached plot at position k is changed in place to plot, then written back through UpdatePlot. */
    method WriteCachedPlot(game: GameSaveData.GameSaveData, k: nat, plot: PlotState.Plot)
      requires k < |game.plots| && game.plots[k].plotID == plot.plotID
      requires forall j :: 0 <= j < k ==> game.plots[j].plotID != plot.plotID
      modifies game
      ensures game.player == old(game.player)
      ensures game.State() == PlotEntityModel.WriteCachedPlot(old(game.State()), k, plot)
    {
      ghost var before := game.State();
      game.plots := game.plots[k := plot];
      assert game.State() == before.(plots := before.plots[k := plot]);
      GameDataProvider.UpdatePlot(game, plot);
      PlotEntityModel.WriteCachedPlotIsUpdatePlot(before, k, plot);
    }

    /** The check after a removal: a plot left without entities is cleared, if the cache finds it. */
    method ClearIfEmpty(game: GameSaveData.GameSaveData, plotID: int)
      modifies game
      ensures game.player == old(game.player)
      ensures game.State() == PlotEntityModel.ClearIfEmpty(old(game.State()), plotService.Cache(), plotID)
    {
      var remainingEntities := PlotEntityQueries.GetPlotEntities(game.State(), plotID);
      if |remainingEntities| == 0 {
        var plot := plotService.GetPlot(game.State(), plotID);
        if plot.Some? {
          WriteCachedPlot(game, plot.value, PlotState.ClearPlot(game.plots[plot.value]));
        }
      }
    }

    /** AddEntityToPlot: the plot must be cached and the validator must accept; the new entity draws the next id. */
    method AddEntityToPlot(game: GameSaveData.GameSaveData, cat: Catalog, guid: nat -> string,
                           plotID: int, entityID: EntityID, positionIndex: int, now: int) returns (ok: bool)
      modifies game
      ensures game.player == old(game.player)
      ensures (ok, game.State())
              == PlotEntityModel.AddEntityToPlot(old(game.State()), plotService.Cache(), cat, guid, plotID, entityID, positionIndex, now)
    {
      var s := game.State();
      var plot := plotService.GetPlot(s, plotID);
      if plot.Null? || !PlotEntityValidator.CanAddEntity(s, cat, plotID, entityID, positionIndex) {
        return false;
      }
      var newEntity := PlotEntityModel.NewPlotEntity(s, cat, guid, plotID, entityID, positionIndex, now);
      IssueAndPlace(game, plot.value, newEntity);
      return true;
    }

    /** The id of the new entity is drawn, then the entity is placed at the cached plot k. */
    method IssueAndPlace(game: GameSaveData.GameSaveData, k: nat, newEntity: EntityLifecycle.Entity)
      requires k < |game.plots| && game.plots[k].plotID == newEntity.associatedPlotID
      requires forall j :: 0 <= j < k ==> game.plots[j].plotID != newEntity.associatedPlotID
      modifies game
      ensures game.player == old(game.player)
      ensures game.State() == PlotEntityModel.PlaceEntity(old(game.State()).(guidsIssued := old(game.State()).guidsIssued + 1), k, newEntity)
    {
      ghost var before := game.State();
      game.guidsIssued := game.guidsIssued + 1;
      assert game.State() == before.(guidsIssued := before.guidsIssued + 1);
      PlaceEntity(game, k, newEntity);
    }

    /** The second half of AddEntityToPlot: store the entity, and occupy its cached plot k if it is the plot's first. */
    method PlaceEntity(game: GameSaveData.GameSaveData, k: nat, newEntity: EntityLifecycle.Entity)
      requires k < |game.plots| && game.plots[k].plotID == newEntity.associatedPlotID
      requires forall j :: 0 <= j < k ==> game.plots[j].plotID != newEntity.associatedPlotID
      modifies game
      ensures game.player == old(game.player)
      ensures game.State() == PlotEntityModel.PlaceEntity(old(game.State()), k, newEntity)
    {
      game.AddFarmEntity(Some(newEntity));
      var existingEntities := PlotEntityQueries.GetPlotEntities(game.State(), newEntity.associatedPlotID);
      if |existingEntities| == 1 {
        WriteCachedPlot(game, k, game.plots[k].(plotState := PlotState.Occupied, occupyingEntityInstanceID := newEntity.instanceID));
      }
    }

    /** AddEntityToCurrentPlot: the viewed plot's least free position, if one is left. */
    method AddEntityToCurrentPlot(game: GameSaveData.GameSaveData, cat: Catalog, guid: nat -> string,
                                  entityID: EntityID, now: int) returns (ok: bool)
      requires plotService.navigation != null
      modifies game
      ensures game.player == old(game.player)
      ensures (ok, game.State())
              == PlotEntityModel.AddEntityToCurrentPlot(old(game.State()), plotService.Cache(), plotService.navigation.currentPlotID,
                                                        cat, guid, entityID, now)
    {
      var current := plotService.navigation.currentPlotID;
      var currentPlot := PlotCacheGetCurrentPlot(game, current);
      if currentPlot.Null? {
        return false;
      }
      var plotID := game.plots[currentPlot.value].plotID;
      var nextPosition := PlotUtilities.FindNextAvailablePosition(game.State(), plotID);
      if nextPosition == -1 {
        return false;
      }
      ok := AddEntityToPlot(game, cat, guid, plotID, entityID, nextPosition, now);
    }

    /** GetCurrentPlot through this service's plot service. */
    function PlotCacheGetCurrentPlot(game: GameSaveData.GameSaveData, current: nat): (r: Nullable<nat>)
      reads this, plotService, game, game.player
      ensures r.Some? ==> r.value == current && current < |game.plots|
    {
      PlotCache.GetCurrentPlot(plotService.Cache(), current, game.State())
    }

    /** RemoveEntityFromPlot: remove the entity at the position, then clear the plot if it is left empty. */
    method RemoveEntityFromPlot(game: GameSaveData.GameSaveData, plotID: int, positionIndex: int) returns (ok: bool)
      modifies game
      ensures game.player == old(game.player)
      ensures (ok, game.State()) == PlotEntityModel.RemoveEntityFromPlot(old(game.State()), plotService.Cache(), plotID, positionIndex)
    {
      var entityToRemove := PlotEntityModel.EntityAt(game.State(), plotID, positionIndex);
      if entityToRemove.Null? {
        return false;
      }
      game.RemoveFarmEntity(entityToRemove.value.instanceID);
      ClearIfEmpty(game, plotID);
      return true;
    }

    /** RemoveEntityFromCurrentPlot: RemoveEntityFromPlot on the viewed plot, if there is one. */
    method RemoveEntityFromCurrentPlot(game: GameSaveData.GameSaveData, positionIndex: int) returns (ok: bool)
      requires plotService.navigation != null
      modifies game
      ensures game.player == old(game.player)
      ensures (ok, game.State())
              == PlotEntityModel.RemoveEntityFromCurrentPlot(old(game.State()), plotService.Cache(),
                                                             plotService.navigation.currentPlotID, positionIndex)
    {
      var currentPlot := PlotCacheGetCurrentPlot(game, plotService.navigation.currentPlotID);
      if currentPlot.Null? {
        return false;
      }
      ok := RemoveEntityFromPlot(game, game.plots[currentPlot.value].plotID, positionIndex);
    }

    /**
     * HarvestAllEntitiesOnPlot: harvest each harvestable entity of the plot in
     * place, sum the stock held beforehand, apply the equipment bonus once,
     * pay it into the inventory when positive, remove the dead and clear the
     * plot if none is left.
     */
    method HarvestAllEntitiesOnPlot(game: GameSaveData.GameSaveData, cat: Catalog, plotID: int, now: int)
      returns (result: EntityLifecycle.HarvestResult)
      modifies game, game.player
      ensures game.player == old(game.player)
      ensures (result, game.State()) == PlotEntityModel.HarvestAllEntitiesOnPlot(old(game.State()), plotService.Cache(), cat, plotID, now)
    {
      var idx := PlotEntityModel.HarvestIndices(game.State(), plotID);
      if |idx| == 0 {
        return EntityLifecycle.FailedHarvest;
      }
      var pass := HarvestLoop(game, idx, cat, now);
      var amount := GameDataManager.GetBonusAdjustedAmount(cat.settings, Some(game.player.Value()), pass.total);
      if amount > 0 {
        game.player.AddItem(pass.item, amount);
      }
      RemoveAll(game, pass.dead);
      ClearIfEmpty(game, plotID);
      return EntityLifecycle.HarvestResult(true, pass.item, amount);
    }

    /**
     * The foreach of the harvest over the given positions: each stored entity
     * is harvested in place and, on success, written back, its stock added
     * and its id noted if it died. The returned pass carries the save after.
     */
    method HarvestLoop(game: GameSaveData.GameSaveData, idx: seq<nat>, cat: Catalog, now: int)
      returns (pass: PlotEntityModel.HarvestPass)
      requires forall m :: 0 <= m < |idx| ==> idx[m] < |game.entities|
      modifies game
      ensures game.player == old(game.player)
      ensures pass == PlotEntityModel.HarvestLoop(PlotEntityModel.StartPass(old(game.State())), idx, cat, now)
      ensures pass.s == game.State()
    {
      ghost var start := PlotEntityModel.StartPass(game.State());
      var total := 0;
      var item := ItemID.None;
      var dead: seq<string> := [];
      var k := 0;
      while k < |idx|
        invariant 0 <= k <= |idx|
        invariant |game.entities| == |start.s.entities|
        invariant game.player == old(game.player)
        invariant PlotEntityModel.HarvestPass(game.State(), total, item, dead) == PlotEntityModel.HarvestLoop(start, idx[..k], cat, now)
      {
        PlotEntityModel.HarvestLoopNext(start, idx, k, cat, now);
        total, item, dead := HarvestOne(game, idx[k], cat, now, total, item, dead);
        k := k + 1;
      }
      assert idx[..k] == idx;
      pass := PlotEntityModel.HarvestPass(game.State(), total, item, dead);
    }

    /** One pass of the harvest foreach, on the stored entity at position i. */
    method HarvestOne(game: GameSaveData.GameSaveData, i: nat, cat: Catalog, now: int, total: int, item: ItemID, dead: seq<string>)
      returns (total': int, item': ItemID, dead': seq<string>)
      requires i < |game.entities|
      modifies game
      ensures game.player == old(game.player)
      ensures PlotEntityModel.HarvestPass(game.State(), total', item', dead')
              == PlotEntityModel.HarvestStep(PlotEntityModel.HarvestPass(old(game.State()), total, item, dead), i, cat, now)
    {
      ghost var before := PlotEntityModel.HarvestPass(game.State(), total, item, dead);
      total', item', dead' := total, item, dead;
      var entity := game.entities[i];
      var entityBaseAmount := entity.accumulatedProducts;
      var out := EntityLifecycle.Harvest(entity, PlotEntityModel.Definition(cat, entity), now);
      game.entities := game.entities[i := out.1];
      assert game.State() == before.s.(entities := before.s.entities[i := out.1]);
      if out.0.success {
        item' := out.0.itemProduced;
        total' := total + entityBaseAmount;
        GameDataProvider.UpdateFarmEntity(game, out.1);
        if EntityLifecycle.IsDead(out.1) {
          dead' := dead + [out.1.instanceID];
        }
      }
    }

    /** The foreach removing the collected ids, in order. */
    method RemoveAll(game: GameSaveData.GameSaveData, ids: seq<string>)
      modifies game
      ensures game.player == old(game.player)
      ensures game.State() == PlotEntityModel.RemoveAll(old(game.State()), ids)
    {
      ghost var start := game.State();
      var m := 0;
      while m < |ids|
        invariant 0 <= m <= |ids|
        invariant game.player == old(game.player)
        invariant game.State() == PlotEntityModel.RemoveAll(start, ids[..m])
      {
        PlotEntityModel.RemoveAllNext(start, ids, m);
        game.RemoveFarmEntity(ids[m]);
        m := m + 1;
      }
      assert ids[..m] == ids;
    }

    /**
     * HandleEntityDeath as written: when the plot is cached, remove the first
     * entity of the plot being viewed, then clear the given plot and write it back.
     */
    method HandleEntityDeath(game: GameSaveData.GameSaveData, plotID: int)
      requires plotService.navigation != null
      modifies game
      ensures game.player == old(game.player)
      ensures game.State() == PlotEntityModel.HandleEntityDeath(old(game.State()), plotService.Cache(),
                                                               plotService.navigation.currentPlotID, plotID)
    {
      var plot := plotService.GetPlot(game.State(), plotID);
      if plot.Some? {
        var entity := PlotEntityQueries.GetCurrentPlotEntity(plotService.Cache(), plotService.navigation.currentPlotID, game.State());
        if entity.Some? {
          game.RemoveFarmEntity(entity.value.instanceID);
        }
        WriteCachedPlot(game, plot.value, PlotState.ClearPlot(game.plots[plot.value]));
      }
    }

    /** The intended death handler: remove the dead entity by its id and clear its plot once nothing stands on it. */
    method HandleEntityDeathOf(game: GameSaveData.GameSaveData, dead: EntityLifecycle.Entity)
      modifies game
      ensures game.player == old(game.player)
      ensures game.State() == PlotEntityModel.HandleEntityDeathOf(old(game.State()), plotService.Cache(), dead)
    {
      var plot := plotService.GetPlot(game.State(), dead.associatedPlotID);
      if plot.Some? {
        game.RemoveFarmEntity(dead.instanceID);
        ClearIfEmpty(game, dead.associatedPlotID);
      }
    }

    /** OnEntityUpdated: a dead entity has HandleEntityDeath run on its plot. */
    method OnEntityUpdated(game: GameSaveData.GameSaveData, entity: Nullable<EntityLifecycle.Entity>)
      requires plotService.navigation != null
      modifies game
      ensures game.player == old(game.player)
      ensures game.State() == PlotEntityModel.OnEntityUpdated(old(game.State()), plotService.Cache(),
                                                             plotService.navigation.currentPlotID, entity)
    {
      if entity.Null? {
        return;
      }
      if EntityLifecycle.IsDead(entity.value) {
        HandleEntityDeath(game, entity.value.associatedPlotID);
      }
    }
  }
}
