/**
 * The read-only queries of the plot entity service: which farm entities
 * stand on a plot, the first of them, and whether any can be harvested.
 * The current-plot forms go through the plot cache and the navigation index.
 */
module PlotEntityQueries {
  import opened Wrappers
  import opened Seqs
  import EntityLifecycle
  import GameState
  import PlotCache

  /** The FindAll predicate of GetPlotEntities. */
  function OnPlot(plotID: int): EntityLifecycle.Entity -> bool
  {
    (e: EntityLifecycle.Entity) => e.associatedPlotID == plotID
  }

  /** GetPlotEntities: exactly the entities standing on the plot, in list order. */
  function GetPlotEntities(s: GameState.GameState, plotID: int): (r: seq<EntityLifecycle.Entity>)
    ensures forall e :: e in r <==> e in s.entities && e.associatedPlotID == plotID
    ensures forall j :: 0 <= j < |r| ==> r[j].associatedPlotID == plotID
  {
    Filter(s.entities, OnPlot(plotID))
  }

  /** GetPlotEntity: the first entity on the plot, or null. */
  function GetPlotEntity(s: GameState.GameState, plotID: int): (r: Nullable<EntityLifecycle.Entity>)
    ensures r.Null? <==> forall j :: 0 <= j < |s.entities| ==> s.entities[j].associatedPlotID != plotID
    ensures r.Some? ==> r.value in s.entities && r.value.associatedPlotID == plotID
  {
    var entities := GetPlotEntities(s, plotID);
    if |entities| == 0 then Null
    else
      assert entities[0] in entities;
      Some(entities[0])
  }

  /** PlotHasEntity: some entity stands on the plot, so GetPlotEntity finds one. */
  function PlotHasEntity(s: GameState.GameState, plotID: int): (b: bool)
    ensures b <==> exists j :: 0 <= j < |s.entities| && s.entities[j].associatedPlotID == plotID
    ensures b <==> GetPlotEntity(s, plotID).Some?
  {
    var entities := GetPlotEntities(s, plotID);
    assert GetPlotEntity(s, plotID).Null? <==> |entities| == 0;
    |entities| > 0
  }

  /** The Where predicate of the harvest: collectable products. */
  predicate IsHarvestable(e: EntityLifecycle.Entity)
  {
    EntityLifecycle.CanHarvest(e) && e.accumulatedProducts > 0
  }

  /** PlotHasHarvestableEntities: some entity on the plot holds products it can hand over. */
  function PlotHasHarvestableEntities(s: GameState.GameState, plotID: int): (b: bool)
    ensures b <==> exists j :: 0 <= j < |s.entities| && s.entities[j].associatedPlotID == plotID
                                                         && IsHarvestable(s.entities[j])
  {
    var entities := GetPlotEntities(s, plotID);
    var found := FirstIndex(entities, IsHarvestable);
    if found.Some? then
      assert entities[found.value] in entities;
      true
    else
      assert forall j :: 0 <= j < |s.entities| && s.entities[j].associatedPlotID == plotID ==>
                           s.entities[j] in entities;
      false
  }

  /** No entity stands on two plots: the entity lists of two different plots share nothing. */
  lemma {:induction false} PlotEntitiesOfDistinctPlots(s: GameState.GameState, a: int, b: int)
    requires a != b
    ensures multiset(GetPlotEntities(s, a)) * multiset(GetPlotEntities(s, b)) == multiset{}
  {
    FilterMultiset(s.entities, OnPlot(a));
    FilterMultiset(s.entities, OnPlot(b));
    var ma := multiset(GetPlotEntities(s, a));
    var mb := multiset(GetPlotEntities(s, b));
    assert forall e :: (ma * mb)[e] == 0 by {
      forall e ensures (ma * mb)[e] == 0 {
        assert ma[e] == 0 || mb[e] == 0;
      }
    }
  }

  function GetCurrentPlotEntities(cache: PlotCache.PlotCache, current: nat, s: GameState.GameState): (r: seq<EntityLifecycle.Entity>)
    ensures PlotCache.GetCurrentPlot(cache, current, s).Null? ==> r == []
    ensures PlotCache.GetCurrentPlot(cache, current, s).Some? ==> r == GetPlotEntities(s, s.plots[current].plotID)
  {
    match PlotCache.GetCurrentPlot(cache, current, s)
    case Null => []
    case Some(k) => GetPlotEntities(s, s.plots[k].plotID)
  }

  /** GetCurrentPlotEntity: the first entity of the plot being viewed. */
  function GetCurrentPlotEntity(cache: PlotCache.PlotCache, current: nat, s: GameState.GameState): (r: Nullable<EntityLifecycle.Entity>)
    ensures PlotCache.GetCurrentPlot(cache, current, s).Null? ==> r.Null?
    ensures PlotCache.GetCurrentPlot(cache, current, s).Some? ==> r == GetPlotEntity(s, s.plots[current].plotID)
  {
    match PlotCache.GetCurrentPlot(cache, current, s)
    case Null => Null
    case Some(k) => GetPlotEntity(s, s.plots[k].plotID)
  }

  /** The Find predicate of GetCurrentPlotEntityAtPosition. */
  function AtIndex(positionIndex: int): EntityLifecycle.Entity -> bool
  {
    (e: EntityLifecycle.Entity) => e.positionIndex == positionIndex
  }

  /**
   * GetCurrentPlotEntityAtPosition: the first entity of the viewed plot at
   * that position; null without a viewed plot or with nothing there.
   */
  function GetCurrentPlotEntityAtPosition(cache: PlotCache.PlotCache, current: nat, s: GameState.GameState,
                                          positionIndex: int): (r: Nullable<EntityLifecycle.Entity>)
    ensures r.Null? <==> forall e :: e in GetCurrentPlotEntities(cache, current, s) ==> e.positionIndex != positionIndex
    ensures r.Some? ==> PlotCache.GetCurrentPlot(cache, current, s).Some? && r.value in s.entities
                        && r.value.associatedPlotID == s.plots[current].plotID && r.value.positionIndex == positionIndex
  {
    var entities := GetCurrentPlotEntities(cache, current, s);
    var found := FirstWhere(entities, AtIndex(positionIndex));
    assert found.Some? ==> found.value in entities;
    found
  }

  /** CurrentPlotHasEntity: there is a viewed plot and some entity stands on it. */
  function CurrentPlotHasEntity(cache: PlotCache.PlotCache, current: nat, s: GameState.GameState): (b: bool)
    ensures b <==> PlotCache.GetCurrentPlot(cache, current, s).Some? && PlotHasEntity(s, s.plots[current].plotID)
  {
    |GetCurrentPlotEntities(cache, current, s)| > 0
  }
}
