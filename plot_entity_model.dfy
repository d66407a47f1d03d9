/**
 * What the plot entity service does to the save, as functions from the save
 * before to the result and the save after: adding an entity at a position,
 * removing one, harvesting a whole plot and handling a death.
 *
 * The plot the service edits is the object the plot cache holds (the save's
 * own plot at the position the cache finds): it is changed in place and then
 * written back through UpdatePlot. Likewise each harvested entity is the
 * stored entity itself, changed in place and then written back through
 * UpdateFarmEntity.
 */
module PlotEntityModel {
  import opened Wrappers
  import opened Seqs
  import opened GameEnums
  import opened Definitions
  import opened Catalog
  import PlotState
  import PlayerState
  import EntityLifecycle
  import GameState
  import GameDataManager
  import PlotCache
  import PlotEntityQueries
  import PlotEntityValidator
  import PlotUtilities

  type Entity = EntityLifecycle.Entity

  /** No two stored entities share an instance id (fresh GUIDs make it so). */
  predicate UniqueInstanceIDs(s: GameState.GameState)
  {
    UniqueIDs(s.entities)
  }

  predicate UniqueIDs(es: seq<Entity>)
  {
    forall i, j :: 0 <= i < |es| && 0 <= j < |es| && i != j ==> es[i].instanceID != es[j].instanceID
  }

  /**
   * The cached plot at position k is changed in place to p, then written
   * back through UpdatePlot, which validates it; WriteCachedPlotIsUpdatePlot
   * shows the two steps come to this.
   */
  function WriteCachedPlot(s: GameState.GameState, k: nat, p: PlotState.Plot): (r: GameState.GameState)
    requires k < |s.plots| && s.plots[k].plotID == p.plotID
    requires forall j :: 0 <= j < k ==> s.plots[j].plotID != p.plotID
  {
    s.(plots := s.plots[k := PlotState.ValidateState(p)])
  }

  /**
   * Changing the cached plot in place and then calling UpdatePlot with it
   * writes the validated plot at position k, because UpdatePlot finds the
   * plot's id first at k.
   */
  lemma WriteCachedPlotIsUpdatePlot(s: GameState.GameState, k: nat, p: PlotState.Plot)
    requires k < |s.plots| && s.plots[k].plotID == p.plotID
    requires forall j :: 0 <= j < k ==> s.plots[j].plotID != p.plotID
    ensures GameState.UpdatePlot(s.(plots := s.plots[k := p]), p) == WriteCachedPlot(s, k, p)
  {
    var changed := s.(plots := s.plots[k := p]);
    assert changed.plots[k].plotID == p.plotID;
    assert forall j :: 0 <= j < k ==> changed.plots[j].plotID != p.plotID;
    assert GameState.PlotIndex(changed, p.plotID) == Some(k);
  }

  /** The check after a removal: a plot left without entities is cleared, if the cache finds it. */
  function ClearIfEmpty(s: GameState.GameState, cache: PlotCache.PlotCache, plotID: int): (r: GameState.GameState)
    ensures r == s.(plots := r.plots)
    ensures |PlotEntityQueries.GetPlotEntities(s, plotID)| > 0 || PlotCache.GetPlot(cache, s, plotID).Null? ==> r == s
    ensures |PlotEntityQueries.GetPlotEntities(s, plotID)| == 0 && PlotCache.GetPlot(cache, s, plotID).Some? ==>
              r.plots == s.plots[PlotCache.GetPlot(cache, s, plotID).value := PlotState.NewPlot(plotID)]
  {
    if |PlotEntityQueries.GetPlotEntities(s, plotID)| == 0 then
      match PlotCache.GetPlot(cache, s, plotID)
      case Null => s
      case Some(k) => WriteCachedPlot(s, k, PlotState.ClearPlot(s.plots[k]))
    else s
  }

  // ---------------------------------------------------------------- adding

  /**
   * AddEntityToPlot: the plot must be in the cache and the validator must
   * accept; the new entity draws the next id of the supply and starts from
   * its definition. A plot that thereby gets its first entity becomes
   * Occupied by it.
   */
  function AddEntityToPlot(s: GameState.GameState, cache: PlotCache.PlotCache, cat: Catalog, guid: nat -> string,
                           plotID: int, entityID: EntityID, positionIndex: int, now: int): (out: (bool, GameState.GameState))
    ensures out.0 <==> PlotCache.GetPlot(cache, s, plotID).Some?
                       && PlotEntityValidator.CanAddEntity(s, cat, plotID, entityID, positionIndex)
    ensures !out.0 ==> out.1 == s
  {
    var plot := PlotCache.GetPlot(cache, s, plotID);
    if plot.Null? || !PlotEntityValidator.CanAddEntity(s, cat, plotID, entityID, positionIndex) then (false, s)
    else (true, PlaceEntity(s.(guidsIssued := s.guidsIssued + 1), plot.value, NewPlotEntity(s, cat, guid, plotID, entityID, positionIndex, now)))
  }

  /** The second half of AddEntityToPlot: store the entity, and occupy its cached plot k if it is the plot's first. */
  function PlaceEntity(s: GameState.GameState, k: nat, newEntity: Entity): (r: GameState.GameState)
    requires k < |s.plots| && s.plots[k].plotID == newEntity.associatedPlotID
    requires forall j :: 0 <= j < k ==> s.plots[j].plotID != newEntity.associatedPlotID
  {
    var added := GameState.AddFarmEntity(s, Some(newEntity));
    if |PlotEntityQueries.GetPlotEntities(added, newEntity.associatedPlotID)| == 1 then
      var plot := added.plots[k].(plotState := PlotState.Occupied, occupyingEntityInstanceID := newEntity.instanceID);
      WriteCachedPlot(added, k, plot)
    else added
  }

  /** The entity AddEntityToPlot creates. */
  function NewPlotEntity(s: GameState.GameState, cat: Catalog, guid: nat -> string,
                         plotID: int, entityID: EntityID, positionIndex: int, now: int): (e: Entity)
    ensures e.instanceID == guid(s.guidsIssued) && e.entityID == entityID
    ensures e.associatedPlotID == plotID && e.positionIndex == positionIndex
    ensures e.currentState == EntityLifecycle.Growing && e.accumulatedProducts == 0 && e.currentYieldsProduced == 0
  {
    EntityLifecycle.NewEntity(guid(s.guidsIssued), entityID, plotID, positionIndex, GetEntity(cat, entityID), now)
  }

  /**
   * A successful addition appends one Growing entity of the kind, plot and
   * position asked for. The plot becomes Occupied by it if it is the plot's
   * first entity, and the plot list is untouched otherwise.
   */
  lemma AddedEntityOccupiesOnlyAnEmptyPlot(s: GameState.GameState, cache: PlotCache.PlotCache, cat: Catalog, guid: nat -> string,
                                           plotID: int, entityID: EntityID, positionIndex: int, now: int)
    requires AddEntityToPlot(s, cache, cat, guid, plotID, entityID, positionIndex, now).0
    requires guid(s.guidsIssued) != ""
    ensures var r := AddEntityToPlot(s, cache, cat, guid, plotID, entityID, positionIndex, now).1;
            var e := NewPlotEntity(s, cat, guid, plotID, entityID, positionIndex, now);
            var k := PlotCache.GetPlot(cache, s, plotID).value;
            r.entities == s.entities + [e]
            && r.guidsIssued == s.guidsIssued + 1 && r.player == s.player && r.workers == s.workers
            && PlotEntityQueries.GetPlotEntities(r, plotID) == PlotEntityQueries.GetPlotEntities(s, plotID) + [e]
            && (|PlotEntityQueries.GetPlotEntities(s, plotID)| == 0 ==>
                  r.plots == s.plots[k := PlotState.Plot(plotID, PlotState.Occupied, e.instanceID)])
            && (|PlotEntityQueries.GetPlotEntities(s, plotID)| > 0 ==> r.plots == s.plots)
  {
    var e := NewPlotEntity(s, cat, guid, plotID, entityID, positionIndex, now);
    var added := s.(guidsIssued := s.guidsIssued + 1, entities := s.entities + [e]);
    PlotEntityValidator.AppendedEntityJoinsItsPlot(s.(guidsIssued := s.guidsIssued + 1), e, plotID);
    assert PlotEntityQueries.GetPlotEntities(added, plotID) == PlotEntityQueries.GetPlotEntities(s, plotID) + [e];
  }

  /** An accepted addition keeps the plot single-kind, with distinct positions and within its quantity. */
  lemma AddEntityKeepsPlotWellFormed(s: GameState.GameState, cache: PlotCache.PlotCache, cat: Catalog, guid: nat -> string,
                                     plotID: int, entityID: EntityID, positionIndex: int, now: int)
    requires PlotEntityValidator.PlotWellFormed(s, cat, plotID)
    requires guid(s.guidsIssued) != ""
    ensures PlotEntityValidator.PlotWellFormed(AddEntityToPlot(s, cache, cat, guid, plotID, entityID, positionIndex, now).1, cat, plotID)
  {
    if AddEntityToPlot(s, cache, cat, guid, plotID, entityID, positionIndex, now).0 {
      var e := NewPlotEntity(s, cat, guid, plotID, entityID, positionIndex, now);
      AddedEntityOccupiesOnlyAnEmptyPlot(s, cache, cat, guid, plotID, entityID, positionIndex, now);
      PlotEntityValidator.AcceptedAdditionKeepsPlotWellFormed(s, cat, e);
      assert PlotEntityQueries.GetPlotEntities(s.(entities := s.entities + [e]), plotID)
          == PlotEntityQueries.GetPlotEntities(AddEntityToPlot(s, cache, cat, guid, plotID, entityID, positionIndex, now).1, plotID);
    }
  }

  /** AddEntityToCurrentPlot: the current plot's least free position, if one is left. */
  function AddEntityToCurrentPlot(s: GameState.GameState, cache: PlotCache.PlotCache, current: nat, cat: Catalog,
                                  guid: nat -> string, entityID: EntityID, now: int): (out: (bool, GameState.GameState))
    ensures PlotCache.GetCurrentPlot(cache, current, s).Null? ==> out == (false, s)
    ensures PlotCache.GetCurrentPlot(cache, current, s).Some? ==>
              var plotID := s.plots[current].plotID;
              var pos := PlotUtilities.NextAvailablePosition(s, plotID);
              (pos == -1 ==> out == (false, s))
              && (pos != -1 ==> out == AddEntityToPlot(s, cache, cat, guid, plotID, entityID, pos, now))
  {
    match PlotCache.GetCurrentPlot(cache, current, s)
    case Null => (false, s)
    case Some(k) =>
      var plotID := s.plots[k].plotID;
      var nextPosition := PlotUtilities.NextAvailablePosition(s, plotID);
      if nextPosition == -1 then (false, s)
      else AddEntityToPlot(s, cache, cat, guid, plotID, entityID, nextPosition, now)
  }

  /** A successful addition to the current plot puts the entity at the least free of its ten positions. */
  lemma CurrentPlotAdditionTakesLeastFreePosition(s: GameState.GameState, cache: PlotCache.PlotCache, current: nat, cat: Catalog,
                                                  guid: nat -> string, entityID: EntityID, now: int)
    requires AddEntityToCurrentPlot(s, cache, current, cat, guid, entityID, now).0
    requires guid(s.guidsIssued) != ""
    ensures PlotCache.GetCurrentPlot(cache, current, s).Some?
    ensures var plotID := s.plots[current].plotID;
            var e := Last(AddEntityToCurrentPlot(s, cache, current, cat, guid, entityID, now).1.entities);
            e.associatedPlotID == plotID && e.entityID == entityID && 0 <= e.positionIndex < PlotUtilities.MaxPositions
            && !PlotUtilities.IsPositionOccupied(s, plotID, e.positionIndex)
            && (forall q :: 0 <= q < e.positionIndex ==> PlotUtilities.IsPositionOccupied(s, plotID, q))
  {
    var plotID := s.plots[current].plotID;
    var pos := PlotUtilities.NextAvailablePosition(s, plotID);
    AddedEntityOccupiesOnlyAnEmptyPlot(s, cache, cat, guid, plotID, entityID, pos, now);
  }

  function Last(es: seq<Entity>): Entity
    requires |es| > 0
  {
    es[|es| - 1]
  }

  // -------------------------------------------------------------- removing

  /** The Find predicate of RemoveEntityFromPlot. */
  function AtPosition(positionIndex: int): Entity -> bool
  {
    (e: Entity) => e.positionIndex == positionIndex
  }

  /** The entity RemoveEntityFromPlot picks: the first of the plot's entities at that position. */
  function EntityAt(s: GameState.GameState, plotID: int, positionIndex: int): (r: Nullable<Entity>)
    ensures r.Null? <==> !PlotEntityValidator.AnyAtPosition(PlotEntityQueries.GetPlotEntities(s, plotID), positionIndex)
    ensures r.Some? ==> r.value in s.entities && r.value.associatedPlotID == plotID && r.value.positionIndex == positionIndex
  {
    var entities := PlotEntityQueries.GetPlotEntities(s, plotID);
    var found := FirstWhere(entities, AtPosition(positionIndex));
    assert found.Some? ==> found.value in entities;
    found
  }

  /**
   * RemoveEntityFromPlot: remove the entity standing at the position (every
   * stored entity with its id goes), then clear the plot if it is left empty.
   */
  function RemoveEntityFromPlot(s: GameState.GameState, cache: PlotCache.PlotCache, plotID: int, positionIndex: int): (out: (bool, GameState.GameState))
    ensures out.0 <==> PlotEntityValidator.AnyAtPosition(PlotEntityQueries.GetPlotEntities(s, plotID), positionIndex)
    ensures !out.0 ==> out.1 == s
  {
    match EntityAt(s, plotID, positionIndex)
    case Null => (false, s)
    case Some(e) => (true, ClearIfEmpty(GameState.RemoveFarmEntity(s, e.instanceID), cache, plotID))
  }

  /**
   * After a successful removal no entity with the removed one's id is left,
   * every entity with another id stays, and the plot is cleared exactly when
   * no entity remains on it (and the cache finds it); otherwise the plots are
   * unchanged.
   */
  lemma RemovalClearsPlotIffNoneRemain(s: GameState.GameState, cache: PlotCache.PlotCache, plotID: int, positionIndex: int)
    requires RemoveEntityFromPlot(s, cache, plotID, positionIndex).0
    ensures var r := RemoveEntityFromPlot(s, cache, plotID, positionIndex).1;
            var gone := EntityAt(s, plotID, positionIndex).value;
            GameState.GetFarmEntity(r, gone.instanceID).Null?
            && (forall e :: e in s.entities && e.instanceID != gone.instanceID ==> e in r.entities)
            && r.player == s.player && r.workers == s.workers
            && (|PlotEntityQueries.GetPlotEntities(r, plotID)| == 0 && PlotCache.GetPlot(cache, s, plotID).Some? ==>
                  r.plots == s.plots[PlotCache.GetPlot(cache, s, plotID).value := PlotState.NewPlot(plotID)])
            && (|PlotEntityQueries.GetPlotEntities(r, plotID)| > 0 ==> r.plots == s.plots)
  {
    var gone := EntityAt(s, plotID, positionIndex).value;
    GameState.RemoveFarmEntityRemovesExactly(s, gone.instanceID);
    var removed := GameState.RemoveFarmEntity(s, gone.instanceID);
    assert PlotEntityQueries.GetPlotEntities(ClearIfEmpty(removed, cache, plotID), plotID) == PlotEntityQueries.GetPlotEntities(removed, plotID);
  }

  /** RemoveEntityFromCurrentPlot: RemoveEntityFromPlot on the viewed plot; nothing without one. */
  function RemoveEntityFromCurrentPlot(s: GameState.GameState, cache: PlotCache.PlotCache, current: nat, positionIndex: int)
    : (out: (bool, GameState.GameState))
    ensures !out.0 ==> out.1 == s
  {
    match PlotCache.GetCurrentPlot(cache, current, s)
    case Null => (false, s)
    case Some(k) => RemoveEntityFromPlot(s, cache, s.plots[k].plotID, positionIndex)
  }

  /**
   * Removing from the viewed plot succeeds exactly when the viewed plot has
   * an entity at that position, and it removes the one the current-plot
   * query finds.
   */
  lemma CurrentPlotRemovalTakesTheViewedEntity(s: GameState.GameState, cache: PlotCache.PlotCache, current: nat, positionIndex: int)
    ensures var r := RemoveEntityFromCurrentPlot(s, cache, current, positionIndex);
            var there := PlotEntityQueries.GetCurrentPlotEntityAtPosition(cache, current, s, positionIndex);
            (r.0 <==> there.Some?)
            && (r.0 ==> GameState.GetFarmEntity(r.1, there.value.instanceID).Null?)
  {
    var there := PlotEntityQueries.GetCurrentPlotEntityAtPosition(cache, current, s, positionIndex);
    if PlotCache.GetCurrentPlot(cache, current, s).Some? {
      var plotID := s.plots[current].plotID;
      var entities := PlotEntityQueries.GetPlotEntities(s, plotID);
      assert PlotEntityQueries.GetCurrentPlotEntities(cache, current, s) == entities;
      assert EntityAt(s, plotID, positionIndex) == there;
      if there.Some? {
        RemovalClearsPlotIffNoneRemain(s, cache, plotID, positionIndex);
      }
    }
  }

  // ------------------------------------------------------------ harvesting

  /** The state the harvest loop carries: the save, the base total, the last item and the ids of the dead. */
  datatype HarvestPass = HarvestPass(s: GameState.GameState, total: int, item: ItemID, dead: seq<string>)

  function StartPass(s: GameState.GameState): HarvestPass
  {
    HarvestPass(s, 0, ItemID.None, [])
  }

  function Definition(cat: Catalog, e: Entity): Nullable<EntityDefinition>
  {
    GetEntity(cat, e.entityID)
  }

  /** The Where predicate of the harvest, over the whole entity list. */
  function HarvestableOn(plotID: int): Entity -> bool
  {
    Both(PlotEntityQueries.OnPlot(plotID), PlotEntityQueries.IsHarvestable)
  }

  /** The positions, in the save's entity list, of the plot's harvestable entities. */
  function HarvestIndices(s: GameState.GameState, plotID: int): (idx: seq<nat>)
    ensures forall m :: 0 <= m < |idx| ==> idx[m] < |s.entities|
    ensures forall m :: 0 <= m < |idx| ==> s.entities[idx[m]].associatedPlotID == plotID
                                           && PlotEntityQueries.IsHarvestable(s.entities[idx[m]])
    ensures forall m, m' :: 0 <= m < m' < |idx| ==> idx[m] < idx[m']
    ensures forall i :: (0 <= i < |s.entities| && s.entities[i].associatedPlotID == plotID
                         && PlotEntityQueries.IsHarvestable(s.entities[i])) ==> i in idx
  {
    var idx := Indices(s.entities, HarvestableOn(plotID), |s.entities|);
    assert forall i :: 0 <= i < |s.entities| ==>
      (HarvestableOn(plotID)(s.entities[i]) <==> s.entities[i].associatedPlotID == plotID && PlotEntityQueries.IsHarvestable(s.entities[i]));
    idx
  }

  /**
   * One pass of the harvest loop on the stored entity at position i: read
   * its stock, harvest it in place and, on success, record the item, add the
   * stock to the total, write it back and note it if it died.
   */
  function HarvestStep(pass: HarvestPass, i: nat, cat: Catalog, now: int): (r: HarvestPass)
    requires i < |pass.s.entities|
    ensures r.s == pass.s.(entities := r.s.entities)
    ensures |r.s.entities| == |pass.s.entities|
  {
    var e := pass.s.entities[i];
    var out := EntityLifecycle.Harvest(e, Definition(cat, e), now);
    var harvested := pass.s.(entities := pass.s.entities[i := out.1]);
    if out.0.success then
      HarvestPass(GameState.UpdateFarmEntity(harvested, out.1), pass.total + e.accumulatedProducts, out.0.itemProduced,
                  pass.dead + (if EntityLifecycle.IsDead(out.1) then [out.1.instanceID] else []))
    else pass.(s := harvested)
  }

  /** The harvest loop over the given positions, in order. */
  function HarvestLoop(pass: HarvestPass, idx: seq<nat>, cat: Catalog, now: int): (r: HarvestPass)
    requires forall m :: 0 <= m < |idx| ==> idx[m] < |pass.s.entities|
    ensures r.s == pass.s.(entities := r.s.entities)
    ensures |r.s.entities| == |pass.s.entities|
    decreases |idx|
  {
    if |idx| == 0 then pass
    else HarvestStep(HarvestLoop(pass, idx[..|idx| - 1], cat, now), idx[|idx| - 1], cat, now)
  }

  /** One more position of the list is one more step on what the earlier ones left. */
  lemma HarvestLoopNext(pass: HarvestPass, idx: seq<nat>, k: nat, cat: Catalog, now: int)
    requires k < |idx| && forall m :: 0 <= m < |idx| ==> idx[m] < |pass.s.entities|
    ensures HarvestLoop(pass, idx[..k + 1], cat, now) == HarvestStep(HarvestLoop(pass, idx[..k], cat, now), idx[k], cat, now)
  {
    assert idx[..k + 1][..k] == idx[..k];
  }

  /** The RemoveFarmEntity calls for the collected ids, in order. */
  function RemoveAll(s: GameState.GameState, ids: seq<string>): (r: GameState.GameState)
    ensures r == s.(entities := r.entities)
    ensures forall e :: e in r.entities <==> e in s.entities && e.instanceID !in ids
    decreases |ids|
  {
    if |ids| == 0 then s
    else GameState.RemoveFarmEntity(RemoveAll(s, ids[..|ids| - 1]), ids[|ids| - 1])
  }

  /** Removing one more id of the list removes it from what the earlier ones left. */
  lemma RemoveAllNext(s: GameState.GameState, ids: seq<string>, m: nat)
    requires m < |ids|
    ensures RemoveAll(s, ids[..m + 1]) == GameState.RemoveFarmEntity(RemoveAll(s, ids[..m]), ids[m])
  {
    assert ids[..m + 1][..m] == ids[..m];
  }

  /**
   * HarvestAllEntitiesOnPlot: fail without change when nothing on the plot
   * is harvestable. Otherwise harvest each harvestable entity, apply the
   * equipment bonus once to the summed base amount, add the result to the
   * inventory when positive, remove the entities that died and clear the
   * plot if none is left.
   */
  function HarvestAllEntitiesOnPlot(s: GameState.GameState, cache: PlotCache.PlotCache, cat: Catalog,
                                    plotID: int, now: int): (out: (EntityLifecycle.HarvestResult, GameState.GameState))
    ensures !PlotEntityQueries.PlotHasHarvestableEntities(s, plotID) ==> out == (EntityLifecycle.FailedHarvest, s)
    ensures PlotEntityQueries.PlotHasHarvestableEntities(s, plotID) ==> out.0.success
    ensures out.1.workers == s.workers && out.1.guidsIssued == s.guidsIssued
  {
    var idx := HarvestIndices(s, plotID);
    if |idx| == 0 then (EntityLifecycle.FailedHarvest, s)
    else
      var pass := HarvestLoop(StartPass(s), idx, cat, now);
      var amount := GameDataManager.GetBonusAdjustedAmount(cat.settings, Some(pass.s.player), pass.total);
      var rewarded := if amount > 0 then pass.s.(player := PlayerState.AddItem(pass.s.player, pass.item, amount)) else pass.s;
      (EntityLifecycle.HarvestResult(true, pass.item, amount), ClearIfEmpty(RemoveAll(rewarded, pass.dead), cache, plotID))
  }

  // The reference results, computed from the harvestable entities as they were before the harvest.

  predicate HasDefinition(cat: Catalog, e: Entity)
  {
    GetEntity(cat, e.entityID).Some?
  }

  /** The summed stock of the entities whose harvest succeeds: those with a definition. */
  function HarvestedTotal(es: seq<Entity>, cat: Catalog): int
    decreases |es|
  {
    if |es| == 0 then 0
    else HarvestedTotal(es[..|es| - 1], cat) + (if HasDefinition(cat, Last(es)) then Last(es).accumulatedProducts else 0)
  }

  /** The product of the last entity whose harvest succeeds, None if there is none. */
  function LastHarvestedItem(es: seq<Entity>, cat: Catalog): ItemID
    decreases |es|
  {
    if |es| == 0 then ItemID.None
    else if HasDefinition(cat, Last(es)) then GetEntity(cat, Last(es).entityID).value.productProducedItemID
    else LastHarvestedItem(es[..|es| - 1], cat)
  }

  /** Harvesting this entity succeeds and leaves it dead. */
  predicate DiesWhenHarvested(cat: Catalog, e: Entity, now: int)
  {
    HasDefinition(cat, e) && EntityLifecycle.IsDead(EntityLifecycle.Harvest(e, Definition(cat, e), now).1)
  }

  /** The ids of the entities satisfying p, in order. */
  function IDsWhere(es: seq<Entity>, p: Entity -> bool): seq<string>
    decreases |es|
  {
    if |es| == 0 then []
    else IDsWhere(es[..|es| - 1], p) + (if p(Last(es)) then [Last(es).instanceID] else [])
  }

  /** An id is listed exactly when some entity with that id satisfies p. */
  lemma {:induction false} IDsWhereMembers(es: seq<Entity>, p: Entity -> bool, x: string)
    ensures x in IDsWhere(es, p) <==> exists m :: 0 <= m < |es| && p(es[m]) && es[m].instanceID == x
    decreases |es|
  {
    if |es| > 0 {
      var init := es[..|es| - 1];
      IDsWhereMembers(init, p, x);
      assert forall m :: 0 <= m < |init| ==> es[m] == init[m];
      if exists m :: 0 <= m < |es| && p(es[m]) && es[m].instanceID == x {
        var m :| 0 <= m < |es| && p(es[m]) && es[m].instanceID == x;
        if m < |init| {
          assert init[m] == es[m];
        }
      }
    }
  }

  function DiesOn(cat: Catalog, now: int): Entity -> bool
  {
    (e: Entity) => DiesWhenHarvested(cat, e, now)
  }

  /** The ids of the entities a harvest leaves dead, in order. */
  function DeadAfterHarvest(es: seq<Entity>, cat: Catalog, now: int): seq<string>
  {
    IDsWhere(es, DiesOn(cat, now))
  }

  /** Writing back a harvested entity sitting at its own, unique, position changes nothing. */
  lemma UpdateFarmEntityAtOwnPosition(s: GameState.GameState, i: nat, e: Entity)
    requires i < |s.entities| && s.entities[i] == e
    requires forall j :: 0 <= j < |s.entities| && j != i ==> s.entities[j].instanceID != e.instanceID
    ensures GameState.UpdateFarmEntity(s, e) == s
  {
    assert GameState.EntityIndex(s, e.instanceID) == Some(i);
    var r := GameState.UpdateFarmEntity(s, e);
    assert r.entities == s.entities;
  }

  /** One pass on an entity still in its original form, whose id no other entity carries. */
  lemma HarvestStepOnUniqueIDs(pass: HarvestPass, s: GameState.GameState, i: nat, cat: Catalog, now: int)
    requires UniqueInstanceIDs(s)
    requires |pass.s.entities| == |s.entities| && i < |s.entities|
    requires forall j :: 0 <= j < |s.entities| ==> pass.s.entities[j].instanceID == s.entities[j].instanceID
    requires pass.s.entities[i] == s.entities[i]
    requires EntityLifecycle.CanHarvest(s.entities[i])
    ensures var r := HarvestStep(pass, i, cat, now);
            var e := s.entities[i];
            r.s.entities == pass.s.entities[i := EntityLifecycle.Harvest(e, Definition(cat, e), now).1]
            && r.total == pass.total + (if HasDefinition(cat, e) then e.accumulatedProducts else 0)
            && r.item == (if HasDefinition(cat, e) then GetEntity(cat, e.entityID).value.productProducedItemID else pass.item)
            && r.dead == pass.dead + (if DiesWhenHarvested(cat, e, now) then [e.instanceID] else [])
  {
    var e := s.entities[i];
    var out := EntityLifecycle.Harvest(e, Definition(cat, e), now);
    var harvested := pass.s.(entities := pass.s.entities[i := out.1]);
    forall j | 0 <= j < |harvested.entities| && j != i
      ensures harvested.entities[j].instanceID != out.1.instanceID
    {
      assert harvested.entities[j].instanceID == s.entities[j].instanceID;
    }
    if out.0.success {
      UpdateFarmEntityAtOwnPosition(harvested, i, out.1);
    }
  }

  /** The entity at position j after harvesting the positions idx. */
  function AfterHarvest(s: GameState.GameState, idx: seq<nat>, j: nat, cat: Catalog, now: int): Entity
    requires j < |s.entities|
  {
    if j in idx then EntityLifecycle.Harvest(s.entities[j], Definition(cat, s.entities[j]), now).1 else s.entities[j]
  }

  /** The loop's preconditions on the positions it visits. */
  predicate HarvestablePositions(s: GameState.GameState, idx: seq<nat>)
  {
    (forall m :: 0 <= m < |idx| ==> idx[m] < |s.entities| && EntityLifecycle.CanHarvest(s.entities[idx[m]]))
    && (forall m, m' :: 0 <= m < m' < |idx| ==> idx[m] < idx[m'])
  }

  /**
   * With unique ids, the first k passes of the loop have replaced exactly the
   * entities at the first k positions by their harvested selves.
   */
  lemma {:induction false} HarvestLoopEntities(s: GameState.GameState, idx: seq<nat>, k: nat, cat: Catalog, now: int)
    requires UniqueInstanceIDs(s) && HarvestablePositions(s, idx)
    requires k <= |idx|
    ensures var pass := HarvestLoop(StartPass(s), idx[..k], cat, now);
            |pass.s.entities| == |s.entities|
            && forall j :: 0 <= j < |s.entities| ==> pass.s.entities[j] == AfterHarvest(s, idx[..k], j, cat, now)
  {
    if k == 0 {
      assert idx[..0] == [];
    } else {
      HarvestLoopEntities(s, idx, k - 1, cat, now);
      NextPositionUntouched(s, idx, k, cat, now);
      var prefix := idx[..k - 1];
      var i := idx[k - 1];
      HarvestStepOnUniqueIDs(HarvestLoop(StartPass(s), prefix, cat, now), s, i, cat, now);
      forall j | 0 <= j < |s.entities|
        ensures HarvestLoop(StartPass(s), idx[..k], cat, now).s.entities[j] == AfterHarvest(s, idx[..k], j, cat, now)
      {
        assert j in idx[..k] <==> j in prefix || j == i;
      }
    }
  }

  /**
   * Pass k of the loop is a step on what the first k - 1 passes left, and
   * they left the entity at its position untouched and every id in place.
   */
  lemma NextPositionUntouched(s: GameState.GameState, idx: seq<nat>, k: nat, cat: Catalog, now: int)
    requires UniqueInstanceIDs(s) && HarvestablePositions(s, idx)
    requires 0 < k <= |idx|
    requires var before := HarvestLoop(StartPass(s), idx[..k - 1], cat, now);
             |before.s.entities| == |s.entities|
             && forall j :: 0 <= j < |s.entities| ==> before.s.entities[j] == AfterHarvest(s, idx[..k - 1], j, cat, now)
    ensures var before := HarvestLoop(StartPass(s), idx[..k - 1], cat, now);
            HarvestLoop(StartPass(s), idx[..k], cat, now) == HarvestStep(before, idx[k - 1], cat, now)
            && before.s.entities[idx[k - 1]] == s.entities[idx[k - 1]]
            && forall j :: 0 <= j < |s.entities| ==> before.s.entities[j].instanceID == s.entities[j].instanceID
  {
    var prefix := idx[..k - 1];
    assert idx[..k][..k - 1] == prefix;
    var before := HarvestLoop(StartPass(s), prefix, cat, now);
    var i := idx[k - 1];
    assert forall m :: 0 <= m < k - 1 ==> prefix[m] < i;
    assert i !in prefix;
    assert before.s.entities[i] == AfterHarvest(s, prefix, i, cat, now);
    forall j | 0 <= j < |s.entities|
      ensures before.s.entities[j].instanceID == s.entities[j].instanceID
    {
      assert before.s.entities[j] == AfterHarvest(s, prefix, j, cat, now);
    }
  }

  /**
   * With unique ids, after the first k passes the total, item and dead list
   * are the reference results on the entities at those positions.
   */
  lemma {:induction false} HarvestLoopAccumulators(s: GameState.GameState, idx: seq<nat>, k: nat, cat: Catalog, now: int)
    requires UniqueInstanceIDs(s) && HarvestablePositions(s, idx)
    requires k <= |idx|
    ensures var pass := HarvestLoop(StartPass(s), idx[..k], cat, now);
            var es := Select(s.entities, idx[..k]);
            pass.total == HarvestedTotal(es, cat)
            && pass.item == LastHarvestedItem(es, cat)
            && pass.dead == DeadAfterHarvest(es, cat, now)
  {
    if k == 0 {
      assert idx[..0] == [];
    } else {
      HarvestLoopAccumulators(s, idx, k - 1, cat, now);
      HarvestLoopEntities(s, idx, k - 1, cat, now);
      NextPositionUntouched(s, idx, k, cat, now);
      var i := idx[k - 1];
      var before := HarvestLoop(StartPass(s), idx[..k - 1], cat, now);
      HarvestStepOnUniqueIDs(before, s, i, cat, now);
      SelectNext(s.entities, idx, k);
      AccumulatorsCarry(before, HarvestStep(before, i, cat, now), Select(s.entities, idx[..k]), cat, now);
    }
  }

  /** A step that adds the last entity's share to accumulators matching the prefix matches the whole list. */
  lemma AccumulatorsCarry(pass: HarvestPass, r: HarvestPass, es: seq<Entity>, cat: Catalog, now: int)
    requires |es| > 0
    requires var prefix := es[..|es| - 1];
             pass.total == HarvestedTotal(prefix, cat) && pass.item == LastHarvestedItem(prefix, cat)
             && pass.dead == DeadAfterHarvest(prefix, cat, now)
    requires var e := Last(es);
             r.total == pass.total + (if HasDefinition(cat, e) then e.accumulatedProducts else 0)
             && r.item == (if HasDefinition(cat, e) then GetEntity(cat, e.entityID).value.productProducedItemID else pass.item)
             && r.dead == pass.dead + (if DiesWhenHarvested(cat, e, now) then [e.instanceID] else [])
    ensures r.total == HarvestedTotal(es, cat) && r.item == LastHarvestedItem(es, cat)
            && r.dead == DeadAfterHarvest(es, cat, now)
  {
    AccumulatorsExtend(es, cat, now);
  }

  /** The reference accumulators on a non-empty list, one entity past those on its prefix. */
  lemma AccumulatorsExtend(es: seq<Entity>, cat: Catalog, now: int)
    requires |es| > 0
    ensures var e := Last(es);
            var prefix := es[..|es| - 1];
            HarvestedTotal(es, cat) == HarvestedTotal(prefix, cat) + (if HasDefinition(cat, e) then e.accumulatedProducts else 0)
            && LastHarvestedItem(es, cat) == (if HasDefinition(cat, e) then GetEntity(cat, e.entityID).value.productProducedItemID else LastHarvestedItem(prefix, cat))
            && DeadAfterHarvest(es, cat, now) == DeadAfterHarvest(prefix, cat, now) + (if DiesWhenHarvested(cat, e, now) then [e.instanceID] else [])
  {
  }

  /** The entities at the first k positions are those at the first k - 1 and then the one at position k - 1. */
  lemma SelectNext(es: seq<Entity>, idx: seq<nat>, k: nat)
    requires 0 < k <= |idx| && forall m :: 0 <= m < |idx| ==> idx[m] < |es|
    ensures var sel := Seqs.Select(es, idx[..k]);
            sel[..k - 1] == Seqs.Select(es, idx[..k - 1]) && Last(sel) == es[idx[k - 1]]
  {
  }

  /**
   * With unique ids, a harvest with something to harvest reports the last
   * harvested product and the bonus-adjusted sum of the stocks the
   * harvestable entities held beforehand (the bonus applied once, to the
   * total), and adds exactly that amount of that item when it is positive.
   */
  lemma HarvestAppliesBonusOnceToTotal(s: GameState.GameState, cache: PlotCache.PlotCache, cat: Catalog, plotID: int, now: int)
    requires UniqueInstanceIDs(s)
    requires PlotEntityQueries.PlotHasHarvestableEntities(s, plotID)
    ensures var harvestable := Filter(PlotEntityQueries.GetPlotEntities(s, plotID), PlotEntityQueries.IsHarvestable);
            var item := LastHarvestedItem(harvestable, cat);
            var amount := GameDataManager.GetBonusAdjustedAmount(cat.settings, Some(s.player), HarvestedTotal(harvestable, cat));
            var out := HarvestAllEntitiesOnPlot(s, cache, cat, plotID, now);
            out.0 == EntityLifecycle.HarvestResult(true, item, amount)
            && out.1.player == (if amount > 0 then PlayerState.AddItem(s.player, item, amount) else s.player)
  {
    FullPassAccumulators(s, cat, plotID, now);
    HarvestAllReportsThePass(s, cache, cat, plotID, now);
  }

  /** With unique ids, the full loop's total, item and dead list are the reference results on the plot's harvestable entities. */
  lemma FullPassAccumulators(s: GameState.GameState, cat: Catalog, plotID: int, now: int)
    requires UniqueInstanceIDs(s)
    ensures var pass := FullPass(s, cat, plotID, now);
            var harvestable := Filter(PlotEntityQueries.GetPlotEntities(s, plotID), PlotEntityQueries.IsHarvestable);
            pass.total == HarvestedTotal(harvestable, cat) && pass.item == LastHarvestedItem(harvestable, cat)
            && pass.dead == DeadAfterHarvest(harvestable, cat, now)
  {
    HarvestablesAreSelected(s, plotID);
    var idx := HarvestIndices(s, plotID);
    assert idx[..|idx|] == idx;
    HarvestLoopAccumulators(s, idx, |idx|, cat, now);
  }

  /** A harvest with something to harvest reports the loop's item and bonus-adjusted total, and credits that to the player. */
  lemma HarvestAllReportsThePass(s: GameState.GameState, cache: PlotCache.PlotCache, cat: Catalog, plotID: int, now: int)
    requires PlotEntityQueries.PlotHasHarvestableEntities(s, plotID)
    ensures var pass := FullPass(s, cat, plotID, now);
            var amount := GameDataManager.GetBonusAdjustedAmount(cat.settings, Some(s.player), pass.total);
            var out := HarvestAllEntitiesOnPlot(s, cache, cat, plotID, now);
            out.0 == EntityLifecycle.HarvestResult(true, pass.item, amount)
            && out.1.player == (if amount > 0 then PlayerState.AddItem(s.player, pass.item, amount) else s.player)
  {
    assert |HarvestIndices(s, plotID)| > 0;
  }

  /** The plot's harvestable entities, in order, are the entities at HarvestIndices. */
  lemma HarvestablesAreSelected(s: GameState.GameState, plotID: int)
    ensures Filter(PlotEntityQueries.GetPlotEntities(s, plotID), PlotEntityQueries.IsHarvestable)
            == Select(s.entities, HarvestIndices(s, plotID))
  {
    FilterFilter(s.entities, PlotEntityQueries.OnPlot(plotID), PlotEntityQueries.IsHarvestable);
    SelectIndices(s.entities, HarvestableOn(plotID), |s.entities|);
    assert s.entities[..|s.entities|] == s.entities;
  }

  /** The whole loop over the plot's harvestable positions. */
  function FullPass(s: GameState.GameState, cat: Catalog, plotID: int, now: int): HarvestPass
  {
    HarvestLoop(StartPass(s), HarvestIndices(s, plotID), cat, now)
  }

  /** What survives a successful harvest: the loop's entities minus every one with a dead id. */
  lemma HarvestKeepsAllButTheDead(s: GameState.GameState, cache: PlotCache.PlotCache, cat: Catalog, plotID: int, now: int)
    requires PlotEntityQueries.PlotHasHarvestableEntities(s, plotID)
    ensures var pass := FullPass(s, cat, plotID, now);
            var r := HarvestAllEntitiesOnPlot(s, cache, cat, plotID, now).1;
            forall x :: x in r.entities <==> x in pass.s.entities && x.instanceID !in pass.dead
  {
  }

  /** With unique ids, the full loop has harvested exactly the plot's harvestable entities, each keeping its id. */
  lemma FullPassEntities(s: GameState.GameState, cat: Catalog, plotID: int, now: int)
    requires UniqueInstanceIDs(s)
    ensures var pass := FullPass(s, cat, plotID, now);
            |pass.s.entities| == |s.entities|
            && UniqueIDs(pass.s.entities)
            && forall j :: 0 <= j < |s.entities| ==> pass.s.entities[j] == AfterHarvest(s, HarvestIndices(s, plotID), j, cat, now)
  {
    var idx := HarvestIndices(s, plotID);
    assert idx[..|idx|] == idx;
    HarvestLoopEntities(s, idx, |idx|, cat, now);
    var pass := FullPass(s, cat, plotID, now);
    forall i | 0 <= i < |s.entities|
      ensures pass.s.entities[i].instanceID == s.entities[i].instanceID
    {
      assert pass.s.entities[i] == AfterHarvest(s, idx, i, cat, now);
    }
  }

  /** With unique ids, an entity's id is among the selected ones satisfying p exactly when it was selected and satisfies p. */
  lemma SelectedIDsWhere(all: seq<Entity>, idx: seq<nat>, p: Entity -> bool, j: nat)
    requires UniqueIDs(all) && j < |all|
    requires forall m :: 0 <= m < |idx| ==> idx[m] < |all|
    ensures all[j].instanceID in IDsWhere(Select(all, idx), p) <==> j in idx && p(all[j])
  {
    var es := Select(all, idx);
    var e := all[j];
    IDsWhereMembers(es, p, e.instanceID);
    if exists m :: 0 <= m < |es| && p(es[m]) && es[m].instanceID == e.instanceID {
      var m :| 0 <= m < |es| && p(es[m]) && es[m].instanceID == e.instanceID;
      assert es[m] == all[idx[m]];
    }
    if j in idx && p(e) {
      var m :| 0 <= m < |idx| && idx[m] == j;
      assert es[m] == e;
    }
  }

  /** With unique ids, an entity's id is on the loop's dead list exactly when it was harvested and the harvest killed it. */
  lemma FullPassDead(s: GameState.GameState, cat: Catalog, plotID: int, now: int, j: nat)
    requires UniqueInstanceIDs(s) && j < |s.entities|
    ensures s.entities[j].instanceID in FullPass(s, cat, plotID, now).dead
            <==> j in HarvestIndices(s, plotID) && DiesWhenHarvested(cat, s.entities[j], now)
  {
    var idx := HarvestIndices(s, plotID);
    assert idx[..|idx|] == idx;
    HarvestLoopAccumulators(s, idx, |idx|, cat, now);
    assert FullPass(s, cat, plotID, now).dead == IDsWhere(Select(s.entities, idx), DiesOn(cat, now));
    SelectedIDsWhere(s.entities, idx, DiesOn(cat, now), j);
  }

  /** In a list with unique ids, the entity with a member's id is that member. */
  lemma FoundByUniqueID(r: GameState.GameState, pool: seq<Entity>, h: Entity)
    requires UniqueIDs(pool) && h in pool && h in r.entities
    requires forall x :: x in r.entities ==> x in pool
    ensures GameState.GetFarmEntity(r, h.instanceID) == Some(h)
  {
    var found := GameState.GetFarmEntity(r, h.instanceID);
    assert found.Some?;
    var a :| 0 <= a < |pool| && pool[a] == found.value;
    var b :| 0 <= b < |pool| && pool[b] == h;
  }

  /**
   * With unique ids, after a harvest with something to harvest, every
   * harvested entity holds no products; it is gone from the save if the
   * harvest left it dead and is stored in its harvested form otherwise.
   * Every entity that was not harvestable on the plot is still there.
   */
  lemma HarvestRemovesExactlyTheDead(s: GameState.GameState, cache: PlotCache.PlotCache, cat: Catalog, plotID: int, now: int, j: nat)
    requires UniqueInstanceIDs(s)
    requires PlotEntityQueries.PlotHasHarvestableEntities(s, plotID)
    requires j < |s.entities|
    ensures var r := HarvestAllEntitiesOnPlot(s, cache, cat, plotID, now).1;
            var e := s.entities[j];
            var h := EntityLifecycle.Harvest(e, Definition(cat, e), now).1;
            (e.associatedPlotID == plotID && PlotEntityQueries.IsHarvestable(e) && HasDefinition(cat, e) ==>
               h.accumulatedProducts == 0
               && (EntityLifecycle.IsDead(h) ==> GameState.GetFarmEntity(r, e.instanceID).Null?)
               && (!EntityLifecycle.IsDead(h) ==> GameState.GetFarmEntity(r, e.instanceID) == Some(h)))
            && (!(e.associatedPlotID == plotID && PlotEntityQueries.IsHarvestable(e)) ==> e in r.entities)
  {
    var idx := HarvestIndices(s, plotID);
    var pass := FullPass(s, cat, plotID, now);
    var r := HarvestAllEntitiesOnPlot(s, cache, cat, plotID, now).1;
    var e := s.entities[j];
    FullPassEntities(s, cat, plotID, now);
    FullPassDead(s, cat, plotID, now, j);
    HarvestKeepsAllButTheDead(s, cache, cat, plotID, now);
    assert pass.s.entities[j] in pass.s.entities;
    if e.associatedPlotID == plotID && PlotEntityQueries.IsHarvestable(e) && HasDefinition(cat, e) {
      assert j in idx;
      var h := EntityLifecycle.Harvest(e, Definition(cat, e), now).1;
      if !EntityLifecycle.IsDead(h) {
        FoundByUniqueID(r, pass.s.entities, h);
      }
    }
  }

  // ----------------------------------------------------------------- death

  /** The entity removal of a death handler: the given entity's id goes, if there is an entity. */
  function RemoveIfAny(s: GameState.GameState, e: Nullable<Entity>): (r: GameState.GameState)
    ensures r == s.(entities := r.entities)
    ensures e.Null? ==> r == s
    ensures e.Some? ==> forall x :: x in r.entities <==> x in s.entities && x.instanceID != e.value.instanceID
  {
    match e
    case Null => s
    case Some(x) => GameState.RemoveFarmEntity(s, x.instanceID)
  }

  /**
   * HandleEntityDeath as written: when the cache finds the plot, remove the
   * first entity of the plot being viewed (current), whichever plot that is,
   * and then clear the given plot whatever still stands on it.
   */
  function HandleEntityDeath(s: GameState.GameState, cache: PlotCache.PlotCache, current: nat, plotID: int): (r: GameState.GameState)
    ensures PlotCache.GetPlot(cache, s, plotID).Null? ==> r == s
    ensures r.player == s.player && r.workers == s.workers && |r.plots| == |s.plots|
    ensures PlotCache.GetPlot(cache, s, plotID).Some? ==>
              r.plots == s.plots[PlotCache.GetPlot(cache, s, plotID).value := PlotState.NewPlot(plotID)]
    ensures PlotCache.GetPlot(cache, s, plotID).Some? ==>
              var viewed := PlotEntityQueries.GetCurrentPlotEntity(cache, current, s);
              forall x :: x in r.entities <==> x in s.entities && (viewed.Null? || x.instanceID != viewed.value.instanceID)
  {
    match PlotCache.GetPlot(cache, s, plotID)
    case Null => s
    case Some(k) =>
      var removed := RemoveIfAny(s, PlotEntityQueries.GetCurrentPlotEntity(cache, current, s));
      WriteCachedPlot(removed, k, PlotState.ClearPlot(removed.plots[k]))
  }

  /**
   * The discrepancy: a death reported on plot plotID while another plot is
   * being viewed removes the viewed plot's first entity, and every entity of
   * plotID with a different id stays, though plotID is marked empty.
   */
  lemma HandleEntityDeathRemovesFromViewedPlot(s: GameState.GameState, cache: PlotCache.PlotCache, current: nat, plotID: int)
    requires PlotCache.GetPlot(cache, s, plotID).Some?
    requires PlotCache.GetCurrentPlot(cache, current, s).Some? && s.plots[current].plotID != plotID
    requires PlotEntityQueries.GetPlotEntity(s, s.plots[current].plotID).Some?
    ensures var viewed := PlotEntityQueries.GetPlotEntity(s, s.plots[current].plotID).value;
            var r := HandleEntityDeath(s, cache, current, plotID);
            viewed.associatedPlotID != plotID
            && GameState.GetFarmEntity(r, viewed.instanceID).Null?
            && (forall x :: x in s.entities && x.associatedPlotID == plotID && x.instanceID != viewed.instanceID ==>
                  x in PlotEntityQueries.GetPlotEntities(r, plotID))
            && PlotState.IsEmpty(r.plots[PlotCache.GetPlot(cache, s, plotID).value])
  {
    var viewed := PlotEntityQueries.GetPlotEntity(s, s.plots[current].plotID).value;
    var r := HandleEntityDeath(s, cache, current, plotID);
    assert forall x :: x in r.entities <==> x in s.entities && x.instanceID != viewed.instanceID;
  }

  /**
   * The intended death handler: when the cache finds the dead entity's plot,
   * remove that entity by its id and clear the plot once nothing stands on
   * it, as RemoveEntityFromPlot does.
   */
  function HandleEntityDeathOf(s: GameState.GameState, cache: PlotCache.PlotCache, dead: Entity): (r: GameState.GameState)
    ensures r.player == s.player && r.workers == s.workers
    ensures PlotCache.GetPlot(cache, s, dead.associatedPlotID).Null? ==> r == s
  {
    match PlotCache.GetPlot(cache, s, dead.associatedPlotID)
    case Null => s
    case Some(_) => ClearIfEmpty(GameState.RemoveFarmEntity(s, dead.instanceID), cache, dead.associatedPlotID)
  }

  /**
   * The intended handler touches only the dead entity and its plot: that
   * entity's id is gone, every entity with another id stays, and the plot is
   * reset exactly when no entity is left on it; no other plot changes.
   */
  lemma HandledDeathStaysOnItsPlot(s: GameState.GameState, cache: PlotCache.PlotCache, dead: Entity)
    requires PlotCache.GetPlot(cache, s, dead.associatedPlotID).Some?
    ensures var r := HandleEntityDeathOf(s, cache, dead);
            var k := PlotCache.GetPlot(cache, s, dead.associatedPlotID).value;
            GameState.GetFarmEntity(r, dead.instanceID).Null?
            && (forall x :: x in r.entities <==> x in s.entities && x.instanceID != dead.instanceID)
            && (|PlotEntityQueries.GetPlotEntities(r, dead.associatedPlotID)| == 0 ==>
                  r.plots == s.plots[k := PlotState.NewPlot(dead.associatedPlotID)])
            && (|PlotEntityQueries.GetPlotEntities(r, dead.associatedPlotID)| > 0 ==> r.plots == s.plots)
  {
    var removed := GameState.RemoveFarmEntity(s, dead.instanceID);
    GameState.RemoveFarmEntityRemovesExactly(s, dead.instanceID);
    assert removed.plots == s.plots;
    assert PlotCache.GetPlot(cache, removed, dead.associatedPlotID) == PlotCache.GetPlot(cache, s, dead.associatedPlotID);
  }

  /** OnEntityUpdated: a dead entity has HandleEntityDeath run on its plot, with the viewed plot current; anything else changes nothing. */
  function OnEntityUpdated(s: GameState.GameState, cache: PlotCache.PlotCache, current: nat, entity: Nullable<Entity>): (r: GameState.GameState)
    ensures entity.Null? || !EntityLifecycle.IsDead(entity.value) ==> r == s
    ensures entity.Some? && EntityLifecycle.IsDead(entity.value) ==>
              r == HandleEntityDeath(s, cache, current, entity.value.associatedPlotID)
  {
    match entity
    case Null => s
    case Some(e) => if EntityLifecycle.IsDead(e) then HandleEntityDeath(s, cache, current, e.associatedPlotID) else s
  }

  /**
   * What a death report does as written: an entity that died on one plot
   * while another plot holding an entity is viewed stays in the save, listed
   * on its plot, which is nevertheless reset to empty; the viewed plot's
   * first entity is the one removed.
   */
  lemma DeathReportRemovesTheViewedEntity(s: GameState.GameState, cache: PlotCache.PlotCache, current: nat, dead: Entity)
    requires UniqueInstanceIDs(s) && dead in s.entities && EntityLifecycle.IsDead(dead)
    requires PlotCache.GetPlot(cache, s, dead.associatedPlotID).Some?
    requires PlotCache.GetCurrentPlot(cache, current, s).Some? && s.plots[current].plotID != dead.associatedPlotID
    requires PlotEntityQueries.GetPlotEntity(s, s.plots[current].plotID).Some?
    ensures var viewed := PlotEntityQueries.GetPlotEntity(s, s.plots[current].plotID).value;
            var r := OnEntityUpdated(s, cache, current, Some(dead));
            GameState.GetFarmEntity(r, viewed.instanceID).Null?
            && dead in PlotEntityQueries.GetPlotEntities(r, dead.associatedPlotID)
            && PlotState.IsEmpty(r.plots[PlotCache.GetPlot(cache, s, dead.associatedPlotID).value])
  {
    var viewed := PlotEntityQueries.GetPlotEntity(s, s.plots[current].plotID).value;
    assert OnEntityUpdated(s, cache, current, Some(dead)) == HandleEntityDeath(s, cache, current, dead.associatedPlotID);
    HandleEntityDeathRemovesFromViewedPlot(s, cache, current, dead.associatedPlotID);
    assert viewed in s.entities && viewed != dead;
    var a :| 0 <= a < |s.entities| && s.entities[a] == dead;
    var b :| 0 <= b < |s.entities| && s.entities[b] == viewed;
    assert a != b;
  }
}
