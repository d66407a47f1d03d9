/**
 * The placement rule for a new entity on a plot: a free position, a known
 * kind, room under the kind's per-plot quantity, and no other kind already
 * on the plot.
 */
module PlotEntityValidator {
  import opened Wrappers
  import opened Seqs
  import opened GameEnums
  import opened Catalog
  import EntityLifecycle
  import GameState
  import PlotEntityQueries

  /** Some entity of the list stands at that position. */
  predicate AnyAtPosition(entities: seq<EntityLifecycle.Entity>, positionIndex: int)
  {
    exists j :: 0 <= j < |entities| && entities[j].positionIndex == positionIndex
  }

  /** The Where predicate counting entities of the same kind. */
  function OfKind(entityID: EntityID): EntityLifecycle.Entity -> bool
  {
    (e: EntityLifecycle.Entity) => e.entityID == entityID
  }

  /** Some entity of the list is of another kind. */
  predicate AnyOtherKind(entities: seq<EntityLifecycle.Entity>, entityID: EntityID)
  {
    exists j :: 0 <= j < |entities| && entities[j].entityID != entityID
  }

  /** CanAddEntity: the four checks, in the source's order. */
  function CanAddEntity(s: GameState.GameState, cat: Catalog, plotID: int, entityID: EntityID, positionIndex: int): (ok: bool)
    ensures ok <==>
              !AnyAtPosition(PlotEntityQueries.GetPlotEntities(s, plotID), positionIndex)
              && GetEntity(cat, entityID).Some?
              && Count(PlotEntityQueries.GetPlotEntities(s, plotID), OfKind(entityID)) < GetEntity(cat, entityID).value.quantityPerPlot
              && !AnyOtherKind(PlotEntityQueries.GetPlotEntities(s, plotID), entityID)
  {
    var existing := PlotEntityQueries.GetPlotEntities(s, plotID);
    if AnyAtPosition(existing, positionIndex) then false
    else
      var entityDef := GetEntity(cat, entityID);
      if entityDef.Null? then false
      else if Count(existing, OfKind(entityID)) >= entityDef.value.quantityPerPlot then false
      else if |existing| > 0 && AnyOtherKind(existing, entityID) then false
      else true
  }

  /** All entities of the list are of one kind. */
  predicate SingleKind(entities: seq<EntityLifecycle.Entity>)
  {
    forall i, j :: 0 <= i < |entities| && 0 <= j < |entities| ==> entities[i].entityID == entities[j].entityID
  }

  /** No two entities of the list share a position. */
  predicate DistinctPositions(entities: seq<EntityLifecycle.Entity>)
  {
    forall i, j :: 0 <= i < j < |entities| ==> entities[i].positionIndex != entities[j].positionIndex
  }

  /** A non-empty list is of a known kind and within that kind's per-plot quantity. */
  predicate WithinQuantity(entities: seq<EntityLifecycle.Entity>, cat: Catalog)
  {
    |entities| > 0 ==>
      GetEntity(cat, entities[0].entityID).Some?
      && |entities| <= GetEntity(cat, entities[0].entityID).value.quantityPerPlot
  }

  /** The shape the validator keeps a plot in. */
  predicate PlotWellFormed(s: GameState.GameState, cat: Catalog, plotID: int)
  {
    var entities := PlotEntityQueries.GetPlotEntities(s, plotID);
    SingleKind(entities) && DistinctPositions(entities) && WithinQuantity(entities, cat)
  }

  /** Appending an entity adds it to its own plot's list and leaves every other plot's list alone. */
  lemma AppendedEntityJoinsItsPlot(s: GameState.GameState, e: EntityLifecycle.Entity, plotID: int)
    ensures PlotEntityQueries.GetPlotEntities(s.(entities := s.entities + [e]), plotID)
            == PlotEntityQueries.GetPlotEntities(s, plotID) + (if e.associatedPlotID == plotID then [e] else [])
  {
    FilterAppend(s.entities, [e], PlotEntityQueries.OnPlot(plotID));
    assert [e][1..] == [];
  }

  /** The list-level step: an entity passing the four checks extends a well-formed list to a well-formed list. */
  lemma AcceptedEntityExtendsList(existing: seq<EntityLifecycle.Entity>, cat: Catalog, e: EntityLifecycle.Entity)
    requires SingleKind(existing) && DistinctPositions(existing) && WithinQuantity(existing, cat)
    requires !AnyAtPosition(existing, e.positionIndex) && !AnyOtherKind(existing, e.entityID)
    requires GetEntity(cat, e.entityID).Some?
    requires Count(existing, OfKind(e.entityID)) < GetEntity(cat, e.entityID).value.quantityPerPlot
    ensures SingleKind(existing + [e]) && DistinctPositions(existing + [e]) && WithinQuantity(existing + [e], cat)
  {
    var after := existing + [e];
    assert forall j :: 0 <= j < |existing| ==> OfKind(e.entityID)(existing[j]);
    CountAll(existing, OfKind(e.entityID));
    assert forall j :: 0 <= j < |after| ==> after[j].entityID == e.entityID;
    assert forall i, j :: 0 <= i < j < |after| ==> after[i].positionIndex != after[j].positionIndex by {
      forall i, j | 0 <= i < j < |after| ensures after[i].positionIndex != after[j].positionIndex {
        if j == |existing| {
          assert after[i] == existing[i];
        } else {
          assert after[i] == existing[i] && after[j] == existing[j];
        }
      }
    }
  }

  /**
   * An addition the validator accepts keeps the plot single-kind, with
   * distinct positions and within the kind's quantity.
   */
  lemma AcceptedAdditionKeepsPlotWellFormed(s: GameState.GameState, cat: Catalog, e: EntityLifecycle.Entity)
    requires PlotWellFormed(s, cat, e.associatedPlotID)
    requires CanAddEntity(s, cat, e.associatedPlotID, e.entityID, e.positionIndex)
    ensures PlotWellFormed(s.(entities := s.entities + [e]), cat, e.associatedPlotID)
  {
    var existing := PlotEntityQueries.GetPlotEntities(s, e.associatedPlotID);
    AppendedEntityJoinsItsPlot(s, e, e.associatedPlotID);
    AcceptedEntityExtendsList(existing, cat, e);
  }
}
