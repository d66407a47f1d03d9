/**
 * What the planting service does to the save: planting a seed item on an
 * empty cached plot takes the kind's per-plot quantity of the item from the
 * inventory and creates that many Growing entities at positions 0, 1, ...,
 * the first of which occupies the plot. Every failure changes nothing.
 */
module PlotPlantingModel {
  import opened Wrappers
  import opened GameEnums
  import opened Definitions
  import opened Catalog
  import Text
  import PlotState
  import PlayerState
  import EntityLifecycle
  import GameState
  import PlotCache
  import PlotEntityModel

  type Entity = EntityLifecycle.Entity

  /** The result struct; a failure leaves every field but the message at its default. */
  datatype PlantingResult = PlantingResult(success: bool, errorMessage: string, plotID: int, entityID: EntityID, quantityPlanted: int)

  function Failure(message: string): (r: PlantingResult)
    ensures !r.success && r.errorMessage == message
  {
    PlantingResult(false, message, 0, EntityID.None, 0)
  }

  const PlotNotEmpty := "Plot is not empty or invalid"
  const CannotBePlanted := "Item cannot be planted"
  const InvalidEntityDefinition := "Invalid entity definition"
  const RemovalFailed := "Failed to remove items from inventory"
  const NoCurrentPlot := "No current plot available"

  function NotEnoughItems(required: int): string
  {
    "Not enough items. Required: " + Text.IntToString(required)
  }

  /** The for loop's trip count: none for a non-positive quantity. */
  function Trips(q: int): nat
  {
    if q < 0 then 0 else q
  }

  /** The cached plot at k may be written back: it carries the id, and no earlier plot does. */
  predicate CachedAt(s: GameState.GameState, k: nat, plotID: int)
  {
    k < |s.plots| && s.plots[k].plotID == plotID && forall j :: 0 <= j < k ==> s.plots[j].plotID != plotID
  }

  /**
   * One pass of the planting loop at position i: draw an id, append a new
   * entity at position i, and on the first pass occupy the cached plot k
   * with it.
   */
  function PlantPass(prev: GameState.GameState, k: nat, guid: nat -> string, entityID: EntityID, plotID: int,
                     def: Nullable<EntityDefinition>, i: nat, now: int): (r: GameState.GameState)
    requires CachedAt(prev, k, plotID)
    ensures CachedAt(r, k, plotID) && |r.plots| == |prev.plots|
    ensures r.player == prev.player && r.workers == prev.workers
    ensures r.guidsIssued == prev.guidsIssued + 1
  {
    var newEntity := EntityLifecycle.NewEntity(guid(prev.guidsIssued), entityID, plotID, i, def, now);
    var added := GameState.AddFarmEntity(prev.(guidsIssued := prev.guidsIssued + 1), Some(newEntity));
    if i == 0 then
      PlotEntityModel.WriteCachedPlot(added, k, added.plots[k].(plotState := PlotState.Occupied, occupyingEntityInstanceID := newEntity.instanceID))
    else added
  }

  /** The save after the first i passes of the planting loop, positions 0 to i-1. */
  function PlantLoop(s: GameState.GameState, k: nat, guid: nat -> string, entityID: EntityID, plotID: int,
                     def: Nullable<EntityDefinition>, i: nat, now: int): (r: GameState.GameState)
    requires CachedAt(s, k, plotID)
    ensures CachedAt(r, k, plotID) && |r.plots| == |s.plots|
    ensures r.player == s.player && r.workers == s.workers
    ensures r.guidsIssued == s.guidsIssued + i
    decreases i
  {
    if i == 0 then s
    else PlantPass(PlantLoop(s, k, guid, entityID, plotID, def, i - 1, now), k, guid, entityID, plotID, def, i - 1, now)
  }

  /** The n entities the loop creates, drawing ids from position g of the supply. */
  function PlantedEntities(g: nat, guid: nat -> string, entityID: EntityID, plotID: int,
                           def: Nullable<EntityDefinition>, n: nat, now: int): (r: seq<Entity>)
    ensures |r| == n
    decreases n
  {
    if n == 0 then []
    else PlantedEntities(g, guid, entityID, plotID, def, n - 1, now) + [EntityLifecycle.NewEntity(guid(g + n - 1), entityID, plotID, n - 1, def, now)]
  }

  /** The checks of PlantItemOnPlot that can fail, in order, without the removal. */
  predicate Plantable(s: GameState.GameState, cache: PlotCache.PlotCache, cat: Catalog, plotID: int, itemID: ItemID)
  {
    var k := PlotCache.GetPlot(cache, s, plotID);
    var itemDef := GetItem(cat, itemID);
    k.Some? && PlotState.IsEmpty(s.plots[k.value])
    && itemDef.Some? && itemDef.value.growsIntoEntityID != EntityID.None
    && GetEntity(cat, itemDef.value.growsIntoEntityID).Some?
    && PlayerState.HasItem(s.player, itemID, GetEntity(cat, itemDef.value.growsIntoEntityID).value.quantityPerPlot)
  }

  /**
   * PlantItemOnPlot: the plot must be cached and Empty, the item must grow
   * into a defined entity kind and the player must hold that kind's per-plot
   * quantity of it. The quantity is removed first, then the entities are
   * created one position at a time.
   */
  function PlantItemOnPlot(s: GameState.GameState, cache: PlotCache.PlotCache, cat: Catalog, guid: nat -> string,
                           plotID: int, itemID: ItemID, now: int): (out: (PlantingResult, GameState.GameState))
    ensures out.0.success <==> Plantable(s, cache, cat, plotID, itemID)
    ensures !out.0.success ==> out.1 == s
    ensures out.1.workers == s.workers
  {
    var plot := PlotCache.GetPlot(cache, s, plotID);
    if plot.Null? || !PlotState.IsEmpty(s.plots[plot.value]) then (Failure(PlotNotEmpty), s)
    else
      var itemDef := GetItem(cat, itemID);
      if itemDef.Null? || itemDef.value.growsIntoEntityID == EntityID.None then (Failure(CannotBePlanted), s)
      else
        var entityDef := GetEntity(cat, itemDef.value.growsIntoEntityID);
        if entityDef.Null? then (Failure(InvalidEntityDefinition), s)
        else
          var requiredQuantity := entityDef.value.quantityPerPlot;
          if !PlayerState.HasItem(s.player, itemID, requiredQuantity) then (Failure(NotEnoughItems(requiredQuantity)), s)
          else
            var removed := PlayerState.RemoveItem(s.player, itemID, requiredQuantity);
            if !removed.0 then (Failure(RemovalFailed), s)
            else
              var paid := s.(player := removed.1);
              (PlantingResult(true, "", plotID, itemDef.value.growsIntoEntityID, requiredQuantity),
               PlantLoop(paid, plot.value, guid, itemDef.value.growsIntoEntityID, plotID, entityDef, Trips(requiredQuantity), now))
  }

  /** The kind a plantable item grows into and that kind's per-plot quantity. */
  function GrowsInto(cat: Catalog, itemID: ItemID): EntityID
  {
    if GetItem(cat, itemID).Some? then GetItem(cat, itemID).value.growsIntoEntityID else EntityID.None
  }

  function RequiredQuantity(cat: Catalog, itemID: ItemID): int
  {
    if GetEntity(cat, GrowsInto(cat, itemID)).Some? then GetEntity(cat, GrowsInto(cat, itemID)).value.quantityPerPlot else 0
  }

  /**
   * With a non-empty id for every draw, i passes have appended the first i
   * planted entities, and occupied the plot with the first of them once i is
   * positive.
   */
  lemma {:induction false} PlantLoopAppends(s: GameState.GameState, k: nat, guid: nat -> string, entityID: EntityID, plotID: int,
                                            def: Nullable<EntityDefinition>, i: nat, now: int)
    requires CachedAt(s, k, plotID)
    requires forall n :: s.guidsIssued <= n < s.guidsIssued + i ==> guid(n) != ""
    ensures PlantLoop(s, k, guid, entityID, plotID, def, i, now).entities
            == s.entities + PlantedEntities(s.guidsIssued, guid, entityID, plotID, def, i, now)
    decreases i
  {
    if i > 0 {
      PlantLoopAppends(s, k, guid, entityID, plotID, def, i - 1, now);
      assert guid(s.guidsIssued + i - 1) != "";
      PlantLoopStep(s, k, guid, entityID, plotID, def, i, now);
      var e := EntityLifecycle.NewEntity(guid(s.guidsIssued + i - 1), entityID, plotID, i - 1, def, now);
      var init := PlantedEntities(s.guidsIssued, guid, entityID, plotID, def, i - 1, now);
      assert PlantedEntities(s.guidsIssued, guid, entityID, plotID, def, i, now) == init + [e];
      assert s.entities + (init + [e]) == (s.entities + init) + [e];
    }
  }

  /** With a non-empty first id, a positive number of passes leaves the plot Occupied by the first entity, and nothing else changed. */
  lemma {:induction false} PlantLoopOccupies(s: GameState.GameState, k: nat, guid: nat -> string, entityID: EntityID, plotID: int,
                                             def: Nullable<EntityDefinition>, i: nat, now: int)
    requires CachedAt(s, k, plotID) && i > 0
    requires forall n :: s.guidsIssued <= n < s.guidsIssued + i ==> guid(n) != ""
    ensures PlantLoop(s, k, guid, entityID, plotID, def, i, now).plots
            == s.plots[k := PlotState.Plot(plotID, PlotState.Occupied, guid(s.guidsIssued))]
    decreases i
  {
    PlantLoopStep(s, k, guid, entityID, plotID, def, i, now);
    if i > 1 {
      PlantLoopOccupies(s, k, guid, entityID, plotID, def, i - 1, now);
    } else {
      assert guid(s.guidsIssued) != "";
      assert s.plots[k].(plotState := PlotState.Occupied, occupyingEntityInstanceID := guid(s.guidsIssued))
          == PlotState.Plot(plotID, PlotState.Occupied, guid(s.guidsIssued));
    }
  }

  /** Pass i appends its entity; the first pass occupies the plot with it, and later passes leave the plots alone. */
  lemma PlantLoopStep(s: GameState.GameState, k: nat, guid: nat -> string, entityID: EntityID, plotID: int,
                      def: Nullable<EntityDefinition>, i: nat, now: int)
    requires CachedAt(s, k, plotID) && i > 0
    requires guid(s.guidsIssued + i - 1) != ""
    ensures var r := PlantLoop(s, k, guid, entityID, plotID, def, i, now);
            var prev := PlantLoop(s, k, guid, entityID, plotID, def, i - 1, now);
            r.entities == prev.entities + [EntityLifecycle.NewEntity(guid(s.guidsIssued + i - 1), entityID, plotID, i - 1, def, now)]
            && (i > 1 ==> r.plots == prev.plots)
            && (i == 1 ==> r.plots == s.plots[k := PlotState.ValidateState(s.plots[k].(plotState := PlotState.Occupied,
                                                                                            occupyingEntityInstanceID := guid(s.guidsIssued)))])
  {
  }

  /**
   * A successful planting takes exactly the per-plot quantity of the item,
   * appends that many Growing entities of the kind the item grows into at
   * positions 0..quantity-1, and leaves the plot Occupied by the first one;
   * the result reports the plot, the kind and the quantity.
   */
  lemma PlantingConsumesAndCreatesQuantity(s: GameState.GameState, cache: PlotCache.PlotCache, cat: Catalog, guid: nat -> string,
                                           plotID: int, itemID: ItemID, now: int)
    requires PlantItemOnPlot(s, cache, cat, guid, plotID, itemID, now).0.success
    requires forall n :: s.guidsIssued <= n < s.guidsIssued + Trips(RequiredQuantity(cat, itemID)) ==> guid(n) != ""
    ensures var out := PlantItemOnPlot(s, cache, cat, guid, plotID, itemID, now);
            var q := RequiredQuantity(cat, itemID);
            var kind := GrowsInto(cat, itemID);
            var k := PlotCache.GetPlot(cache, s, plotID).value;
            var planted := PlantedEntities(s.guidsIssued, guid, kind, plotID, GetEntity(cat, kind), Trips(q), now);
            out.0 == PlantingResult(true, "", plotID, kind, q)
            && PlayerState.GetItemCount(out.1.player, itemID) == PlayerState.GetItemCount(s.player, itemID) - q
            && out.1.entities == s.entities + planted
            && (forall j :: 0 <= j < |planted| ==>
                  planted[j].entityID == kind && planted[j].associatedPlotID == plotID && planted[j].positionIndex == j
                  && planted[j].currentState == EntityLifecycle.Growing)
            && (q > 0 ==> out.1.plots == s.plots[k := PlotState.Plot(plotID, PlotState.Occupied, guid(s.guidsIssued))])
            && (q <= 0 ==> out.1.plots == s.plots)
            && out.1.workers == s.workers && out.1.guidsIssued == s.guidsIssued + Trips(q)
  {
    var kind := GrowsInto(cat, itemID);
    var q := RequiredQuantity(cat, itemID);
    var k := PlotCache.GetPlot(cache, s, plotID).value;
    var paid := s.(player := PlayerState.RemoveItem(s.player, itemID, q).1);
    PlantLoopAppends(paid, k, guid, kind, plotID, GetEntity(cat, kind), Trips(q), now);
    if q > 0 {
      PlantLoopOccupies(paid, k, guid, kind, plotID, GetEntity(cat, kind), Trips(q), now);
    }
    PlantedEntitiesShape(s.guidsIssued, guid, kind, plotID, GetEntity(cat, kind), Trips(q), now);
  }

  /** Entity j of the planted list is a new Growing entity of the kind, on the plot, at position j. */
  lemma {:induction false} PlantedEntitiesShape(g: nat, guid: nat -> string, entityID: EntityID, plotID: int,
                                                def: Nullable<EntityDefinition>, n: nat, now: int)
    ensures forall j :: 0 <= j < n ==>
              PlantedEntities(g, guid, entityID, plotID, def, n, now)[j] == EntityLifecycle.NewEntity(guid(g + j), entityID, plotID, j, def, now)
    decreases n
  {
    if n > 0 {
      PlantedEntitiesShape(g, guid, entityID, plotID, def, n - 1, now);
      var init := PlantedEntities(g, guid, entityID, plotID, def, n - 1, now);
      var planted := PlantedEntities(g, guid, entityID, plotID, def, n, now);
      forall j | 0 <= j < n
        ensures planted[j] == EntityLifecycle.NewEntity(guid(g + j), entityID, plotID, j, def, now)
      {
        if j < n - 1 {
          assert planted[j] == init[j];
          assert init[j] == EntityLifecycle.NewEntity(guid(g + j), entityID, plotID, j, def, now);
        } else {
          assert planted == init + [EntityLifecycle.NewEntity(guid(g + n - 1), entityID, plotID, n - 1, def, now)];
          assert planted[j] == EntityLifecycle.NewEntity(guid(g + n - 1), entityID, plotID, n - 1, def, now);
        }
      }
    }
  }

  /** PlantItemOnCurrentPlot: plant on the viewed plot, failing when there is none. */
  function PlantItemOnCurrentPlot(s: GameState.GameState, cache: PlotCache.PlotCache, current: nat, cat: Catalog,
                                  guid: nat -> string, itemID: ItemID, now: int): (out: (PlantingResult, GameState.GameState))
    ensures PlotCache.GetCurrentPlot(cache, current, s).Null? ==> out == (Failure(NoCurrentPlot), s)
    ensures PlotCache.GetCurrentPlot(cache, current, s).Some? ==>
              out == PlantItemOnPlot(s, cache, cat, guid, s.plots[current].plotID, itemID, now)
  {
    match PlotCache.GetCurrentPlot(cache, current, s)
    case Null => (Failure(NoCurrentPlot), s)
    case Some(k) => PlantItemOnPlot(s, cache, cat, guid, s.plots[k].plotID, itemID, now)
  }

  // ------------------------------------------------------------ the guard

  /** A call that either returns a value or dereferences null. */
  datatype Outcome = Returns(value: bool) | ThrowsNullReference

  /**
   * CanPlantOnPlot as written: `itemDef?.growsIntoEntityID == None` is false
   * for a missing definition, so the next line reads the field of null.
   */
  function CanPlantOnPlot(s: GameState.GameState, cache: PlotCache.PlotCache, cat: Catalog, plotID: int, itemID: ItemID): (r: Outcome)
    ensures r.ThrowsNullReference? <==>
              PlotCache.GetPlot(cache, s, plotID).Some? && PlotState.IsEmpty(s.plots[PlotCache.GetPlot(cache, s, plotID).value])
              && GetItem(cat, itemID).Null?
  {
    var plot := PlotCache.GetPlot(cache, s, plotID);
    if plot.Null? || !PlotState.IsEmpty(s.plots[plot.value]) then Returns(false)
    else
      var itemDef := GetItem(cat, itemID);
      if itemDef.Some? && itemDef.value.growsIntoEntityID == EntityID.None then Returns(false)
      else if itemDef.Null? then ThrowsNullReference
      else
        var entityDef := GetEntity(cat, itemDef.value.growsIntoEntityID);
        if entityDef.Null? then Returns(false)
        else Returns(PlayerState.HasItem(s.player, itemID, entityDef.value.quantityPerPlot))
  }

  /** The discrepancy: an item without a definition, checked against an empty cached plot, throws instead of answering false. */
  lemma UnknownItemMakesCanPlantThrow(s: GameState.GameState, cache: PlotCache.PlotCache, cat: Catalog, plotID: int, itemID: ItemID)
    requires PlotCache.GetPlot(cache, s, plotID).Some? && PlotState.IsEmpty(s.plots[PlotCache.GetPlot(cache, s, plotID).value])
    requires GetItem(cat, itemID).Null?
    ensures CanPlantOnPlot(s, cache, cat, plotID, itemID) == ThrowsNullReference
  {
  }

  /** For an item with a definition the guard as written answers, and agrees with the intended one. */
  lemma CanPlantAnswersForKnownItems(s: GameState.GameState, cache: PlotCache.PlotCache, cat: Catalog, plotID: int, itemID: ItemID)
    requires GetItem(cat, itemID).Some?
    ensures CanPlantOnPlot(s, cache, cat, plotID, itemID) == Returns(CanPlantOnPlotChecked(s, cache, cat, plotID, itemID))
  {
  }

  /** The intended CanPlantOnPlot: false for a missing item definition, like the other failed checks. */
  function CanPlantOnPlotChecked(s: GameState.GameState, cache: PlotCache.PlotCache, cat: Catalog, plotID: int, itemID: ItemID): (ok: bool)
  {
    var plot := PlotCache.GetPlot(cache, s, plotID);
    if plot.Null? || !PlotState.IsEmpty(s.plots[plot.value]) then false
    else
      var itemDef := GetItem(cat, itemID);
      if itemDef.Null? || itemDef.value.growsIntoEntityID == EntityID.None then false
      else
        var entityDef := GetEntity(cat, itemDef.value.growsIntoEntityID);
        if entityDef.Null? then false
        else PlayerState.HasItem(s.player, itemID, entityDef.value.quantityPerPlot)
  }

  /** The intended guard holds exactly when planting would succeed, for every save, cache, catalog, plot and item. */
  lemma CanPlantIffPlantingSucceeds(s: GameState.GameState, cache: PlotCache.PlotCache, cat: Catalog, guid: nat -> string,
                                    plotID: int, itemID: ItemID, now: int)
    ensures CanPlantOnPlotChecked(s, cache, cat, plotID, itemID) <==> PlantItemOnPlot(s, cache, cat, guid, plotID, itemID, now).0.success
  {
  }
}
