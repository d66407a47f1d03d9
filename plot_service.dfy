/**
 * The plot service: the plot cache, its refresh from the loaded save, and
 * the summary of the plot being viewed.
 */
module PlotService {
  import opened Wrappers
  import opened GameEnums
  import PlotState
  import EntityLifecycle
  import GameState
  import GameSaveData
  import PlotCache
  import PlotNavigation
  import PlotEntityQueries

  /** GetCurrentPlotInfo's summary of the viewed plot. */
  datatype PlotInfo = PlotInfo(
    plotID: int,
    totalPlots: int,
    isEmpty: bool,
    hasEntity: bool,
    entityType: EntityID,
    entityState: EntityLifecycle.EntityState)

  /**
   * GetCurrentPlotInfo: the index and total always; the plot's emptiness and
   * occupation when there is a current plot (empty and unoccupied otherwise);
   * the kind and state of its first entity when there is one (None and Dead
   * otherwise).
   */
  function GetCurrentPlotInfo(cache: PlotCache.PlotCache, current: nat, s: GameState.GameState): (info: PlotInfo)
    ensures info.plotID == current && info.totalPlots == cache.count
    ensures PlotCache.GetCurrentPlot(cache, current, s).Some? ==>
              info.isEmpty == PlotState.IsEmpty(s.plots[current])
              && info.hasEntity == PlotState.IsOccupied(s.plots[current])
  {
    var currentPlot := PlotCache.GetCurrentPlot(cache, current, s);
    var entity := PlotEntityQueries.GetCurrentPlotEntity(cache, current, s);
    PlotInfo(
      current,
      cache.count,
      if currentPlot.Some? then PlotState.IsEmpty(s.plots[currentPlot.value]) else true,
      if currentPlot.Some? then PlotState.IsOccupied(s.plots[currentPlot.value]) else false,
      if entity.Some? then entity.value.entityID else EntityID.None,
      if entity.Some? then entity.value.currentState else EntityLifecycle.Dead)
  }

  /** With no current plot the summary is an empty, unoccupied plot holding a dead entity of no kind. */
  lemma PlotInfoWithoutCurrentPlot(cache: PlotCache.PlotCache, current: nat, s: GameState.GameState)
    requires PlotCache.GetCurrentPlot(cache, current, s).Null?
    ensures var info := GetCurrentPlotInfo(cache, current, s);
            info.isEmpty && !info.hasEntity && info.entityType == EntityID.None && info.entityState == EntityLifecycle.Dead
  {
  }

  /**
   * With a current plot the entity fields describe the first entity standing
   * on it, and fall back to None and Dead exactly when no entity stands there.
   */
  lemma PlotInfoDescribesFirstEntity(cache: PlotCache.PlotCache, current: nat, s: GameState.GameState)
    requires PlotCache.GetCurrentPlot(cache, current, s).Some?
    ensures var info := GetCurrentPlotInfo(cache, current, s);
            var entities := PlotEntityQueries.GetPlotEntities(s, s.plots[current].plotID);
            (|entities| > 0 ==> info.entityType == entities[0].entityID && info.entityState == entities[0].currentState)
            && (|entities| == 0 ==> info.entityType == EntityID.None && info.entityState == EntityLifecycle.Dead)
  {
  }

  class PlotService {
    var initialized: bool
    /** How many leading plots of the save the cache holds. */
    var count: nat
    var navigation: PlotNavigation.PlotNavigationService?

    function Cache(): PlotCache.PlotCache
      reads this
    {
      PlotCache.PlotCache(initialized, count)
    }

    /** A new service: an empty, uninitialised cache and no navigation service. */
    constructor ()
      ensures Cache() == PlotCache.Uninitialized && navigation == null
    {
      initialized := false;
      count := 0;
      navigation := null;
    }

    method SetNavigationService(nav: PlotNavigation.PlotNavigationService?)
      modifies this
      ensures navigation == nav && Cache() == old(Cache())
    {
      navigation := nav;
    }

    /**
     * RefreshPlotsFromGameData: refill the cache from the save (leave it empty
     * without one), pull an out-of-range current index back, and mark the
     * cache initialised.
     */
    method RefreshPlotsFromGameData(game: GameSaveData.GameSaveData?)
      modifies this, navigation
      ensures navigation == old(navigation)
      ensures var gameState := if game == null then Null else Some(old(game.State()));
              var out := PlotCache.Refresh(gameState, if navigation == null then 0 else old(navigation.currentPlotID), navigation != null);
              Cache() == out.0 && (navigation != null ==> navigation.currentPlotID == out.1)
    {
      count := 0;
      if game != null {
        count := |game.plots|;
        if navigation != null && navigation.currentPlotID >= count {
          navigation.currentPlotID := if count - 1 < 0 then 0 else count - 1;
        }
      }
      initialized := true;
    }

    /** GetPlot through the cache, as a position in the save's plot list. */
    function GetPlot(s: GameState.GameState, plotID: int): (r: Nullable<nat>)
      reads this
      ensures !initialized ==> r.Null?
      ensures r.Some? ==> r.value < |s.plots| && s.plots[r.value].plotID == plotID
    {
      PlotCache.GetPlot(Cache(), s, plotID)
    }

    function GetTotalPlotsCount(): (n: nat)
      reads this
      ensures n == Cache().count
    {
      count
    }
  }
}
