/**
 * The farm-entity pass, shared by the live FarmEntityUpdateManager and the
 * offline entity event: every entity's timers run for one interval with its
 * own definition, the ids of those found dead are collected, and then each
 * of them is removed in turn, freeing the plot it occupied.
 */
module FarmEntityUpdate {
  import opened Wrappers
  import opened Seqs
  import opened Text
  import opened Catalog
  import PlotState
  import EntityLifecycle
  import GameState
  import PlotEntityModel

  type Entity = EntityLifecycle.Entity

  /** One entity's UpdateTimers, with the definition looked up by its kind. */
  function Tick(e: Entity, cat: Catalog, dt: real, now: int): Entity
  {
    EntityLifecycle.UpdateTimers(e, GetEntity(cat, e.entityID), dt, now)
  }

  /** The entity list after the foreach: each entity ticked once, in place. */
  function Advanced(es: seq<Entity>, cat: Catalog, dt: real, now: int): (r: seq<Entity>)
    ensures |r| == |es|
    ensures forall i :: 0 <= i < |es| ==> r[i] == Tick(es[i], cat, dt, now)
  {
    seq(|es|, i requires 0 <= i < |es| => Tick(es[i], cat, dt, now))
  }

  /** The entitiesToRemove list: the ids of the entities dead after their tick, in list order. */
  function DeadIDs(es: seq<Entity>): seq<string>
  {
    PlotEntityModel.IDsWhere(es, EntityLifecycle.IsDead)
  }

  /** The entity was changed by its tick in a way the manager notices: a new state or a new stock. */
  predicate Changed(before: Entity, after: Entity)
  {
    after.currentState != before.currentState || after.accumulatedProducts != before.accumulatedProducts
  }

  /** The entitiesUpdated flag: some entity changed or is dead after its tick. */
  predicate SaveRequested(before: seq<Entity>, after: seq<Entity>)
    requires |before| == |after|
  {
    exists i :: 0 <= i < |before| && (Changed(before[i], after[i]) || EntityLifecycle.IsDead(after[i]))
  }

  /** The entity with that id is the recorded occupant of the plot it says it stands on. */
  predicate OccupiesItsPlot(s: GameState.GameState, instanceID: string)
  {
    match GameState.GetFarmEntity(s, instanceID)
    case Null => false
    case Some(e) =>
      match GameState.GetPlot(s, e.associatedPlotID)
      case Null => false
      case Some(p) => p.occupyingEntityInstanceID == instanceID
  }

  /**
   * RemoveDeadEntity: nothing if no entity has the id. Otherwise the plot
   * the entity names is emptied if, and only if, the entity is its
   * occupant, and every entity with the id is removed.
   */
  function RemoveDeadEntity(s: GameState.GameState, instanceID: string): (r: GameState.GameState)
    ensures GameState.GetFarmEntity(s, instanceID).Null? ==> r == s
    ensures r == s.(plots := r.plots, entities := r.entities)
    ensures r.entities == Filter(s.entities, GameState.NotWithID(instanceID))
    ensures !OccupiesItsPlot(s, instanceID) ==> r.plots == s.plots
    ensures OccupiesItsPlot(s, instanceID) ==>
              var plotID := GameState.GetFarmEntity(s, instanceID).value.associatedPlotID;
              r.plots == s.plots[GameState.PlotIndex(s, plotID).value := PlotState.NewPlot(plotID)]
    ensures |r.plots| == |s.plots|
    ensures forall k :: 0 <= k < |s.plots| ==>
              r.plots[k] == s.plots[k]
              || (r.plots[k] == PlotState.NewPlot(s.plots[k].plotID) && s.plots[k].occupyingEntityInstanceID == instanceID)
  {
    match GameState.GetFarmEntity(s, instanceID)
    case Null =>
      FilterKeepsAll(s.entities, GameState.NotWithID(instanceID));
      s
    case Some(e) =>
      var freed :=
        match GameState.GetPlot(s, e.associatedPlotID)
        case Null => s
        case Some(p) =>
          if p.occupyingEntityInstanceID == instanceID
          then
            FreeingResetsThePlot(s, p, instanceID);
            GameState.UpdatePlot(s, p.(plotState := PlotState.Empty, occupyingEntityInstanceID := ""))
          else s;
      GameState.RemoveFarmEntity(freed, instanceID)
  }

  /** Emptying the plot an entity occupies resets that plot, found by its id, to a new plot and touches no other. */
  lemma FreeingResetsThePlot(s: GameState.GameState, p: PlotState.Plot, instanceID: string)
    requires GameState.GetPlot(s, p.plotID) == Some(p) && p.occupyingEntityInstanceID == instanceID
    ensures var r := GameState.UpdatePlot(s, p.(plotState := PlotState.Empty, occupyingEntityInstanceID := ""));
            r == s.(plots := s.plots[GameState.PlotIndex(s, p.plotID).value := PlotState.NewPlot(p.plotID)])
            && forall k :: 0 <= k < |s.plots| ==>
                 r.plots[k] == s.plots[k]
                 || (r.plots[k] == PlotState.NewPlot(s.plots[k].plotID) && s.plots[k].occupyingEntityInstanceID == instanceID)
  {
    var cleared := p.(plotState := PlotState.Empty, occupyingEntityInstanceID := "");
    var r := GameState.UpdatePlot(s, cleared);
    var j := GameState.PlotIndex(s, p.plotID).value;
    assert PlotState.ValidateState(cleared) == PlotState.NewPlot(p.plotID);
    assert r.plots == s.plots[j := PlotState.NewPlot(p.plotID)];
  }

  /** Keep the entities whose id is not listed. */
  function NotIn(ids: seq<string>): Entity -> bool
  {
    (e: Entity) => e.instanceID !in ids
  }

  /**
   * The removal foreach over the collected ids, in order. Every entity with
   * a listed id is gone, the others stay in order, and the only plots that
   * change are emptied ones whose occupant was listed.
   */
  function RemoveDeadEntities(s: GameState.GameState, ids: seq<string>): (r: GameState.GameState)
    ensures r == s.(plots := r.plots, entities := r.entities)
    ensures r.entities == Filter(s.entities, NotIn(ids))
    ensures |r.plots| == |s.plots|
    ensures forall k :: 0 <= k < |s.plots| ==>
              r.plots[k] == s.plots[k]
              || (r.plots[k] == PlotState.NewPlot(s.plots[k].plotID) && s.plots[k].occupyingEntityInstanceID in ids)
    decreases |ids|
  {
    if |ids| == 0 then
      FilterKeepsAll(s.entities, NotIn(ids));
      s
    else
      var mid := RemoveDeadEntities(s, ids[..|ids| - 1]);
      RemovalStep(s, ids, mid);
      RemoveDeadEntity(mid, ids[|ids| - 1])
  }

  /** One more removal keeps RemoveDeadEntities' promise for the longer id list. */
  lemma RemovalStep(s: GameState.GameState, ids: seq<string>, mid: GameState.GameState)
    requires |ids| > 0
    requires mid == s.(plots := mid.plots, entities := mid.entities)
    requires mid.entities == Filter(s.entities, NotIn(ids[..|ids| - 1]))
    requires |mid.plots| == |s.plots|
    requires forall k :: 0 <= k < |s.plots| ==>
               mid.plots[k] == s.plots[k]
               || (mid.plots[k] == PlotState.NewPlot(s.plots[k].plotID) && s.plots[k].occupyingEntityInstanceID in ids[..|ids| - 1])
    ensures var r := RemoveDeadEntity(mid, ids[|ids| - 1]);
            r == s.(plots := r.plots, entities := r.entities)
            && r.entities == Filter(s.entities, NotIn(ids))
            && |r.plots| == |s.plots|
            && forall k :: 0 <= k < |s.plots| ==>
                 r.plots[k] == s.plots[k]
                 || (r.plots[k] == PlotState.NewPlot(s.plots[k].plotID) && s.plots[k].occupyingEntityInstanceID in ids)
  {
    var init := ids[..|ids| - 1];
    var last := ids[|ids| - 1];
    assert ids == init + [last];
    FilterFilter(s.entities, NotIn(init), GameState.NotWithID(last));
    FilterCongruent(s.entities, Both(NotIn(init), GameState.NotWithID(last)), NotIn(ids));
    var r := RemoveDeadEntity(mid, last);
    forall k | 0 <= k < |s.plots|
      ensures r.plots[k] == s.plots[k]
              || (r.plots[k] == PlotState.NewPlot(s.plots[k].plotID) && s.plots[k].occupyingEntityInstanceID in ids)
    {
      assert s.plots[k].occupyingEntityInstanceID in init ==> s.plots[k].occupyingEntityInstanceID in ids;
    }
  }

  /** The pass on a save: tick every entity, then remove the dead ones found by the ticks. */
  function EntityPass(s: GameState.GameState, cat: Catalog, dt: real, now: int): (r: GameState.GameState)
  {
    var advanced := s.(entities := Advanced(s.entities, cat, dt, now));
    RemoveDeadEntities(advanced, DeadIDs(advanced.entities))
  }

  /** The pass's dt: the timer interval scaled by the manager's speed. */
  function StepLength(interval: real, updateSpeed: real): real
  {
    interval * updateSpeed
  }

  /**
   * UpdateAllFarmEntities: before initialisation or without game data
   * nothing happens and no save is requested; otherwise the pass runs with
   * dt = interval × updateSpeed and a save is requested when some entity
   * changed or died.
   */
  function UpdateAllFarmEntities(initialized: bool, game: Nullable<GameState.GameState>, cat: Catalog,
                                 interval: real, updateSpeed: real, now: int): (r: (Nullable<GameState.GameState>, bool))
    ensures !initialized || game.Null? ==> r == (game, false)
    ensures initialized && game.Some? ==>
              var dt := StepLength(interval, updateSpeed);
              r == (Some(EntityPass(game.value, cat, dt, now)),
                    SaveRequested(game.value.entities, Advanced(game.value.entities, cat, dt, now)))
  {
    if !initialized || game.Null? then (game, false)
    else
      var s := game.value;
      var dt := StepLength(interval, updateSpeed);
      (Some(EntityPass(s, cat, dt, now)), SaveRequested(s.entities, Advanced(s.entities, cat, dt, now)))
  }

  /** A tick keeps every id, so distinct ids stay distinct. */
  lemma AdvancedKeepsIDs(es: seq<Entity>, cat: Catalog, dt: real, now: int)
    ensures forall i :: 0 <= i < |es| ==> Advanced(es, cat, dt, now)[i].instanceID == es[i].instanceID
    ensures PlotEntityModel.UniqueIDs(es) ==> PlotEntityModel.UniqueIDs(Advanced(es, cat, dt, now))
  {
  }

  /**
   * No entity that is dead after its tick survives the pass, and every
   * survivor is one of the ticked entities; the player and the workers are
   * not touched.
   */
  lemma NoDeadEntitySurvives(s: GameState.GameState, cat: Catalog, dt: real, now: int)
    ensures var r := EntityPass(s, cat, dt, now);
            r.player == s.player && r.workers == s.workers
            && forall x :: x in r.entities ==> x in Advanced(s.entities, cat, dt, now) && !EntityLifecycle.IsDead(x)
  {
    var adv := Advanced(s.entities, cat, dt, now);
    var r := EntityPass(s, cat, dt, now);
    forall x | x in r.entities
      ensures x in adv && !EntityLifecycle.IsDead(x)
    {
      var m :| 0 <= m < |adv| && adv[m] == x;
      PlotEntityModel.IDsWhereMembers(adv, EntityLifecycle.IsDead, x.instanceID);
    }
  }

  /**
   * With distinct ids the pass removes exactly the dead: the entity list
   * afterwards is the ticked list without its dead entities, in order.
   */
  lemma PassRemovesExactlyTheDead(s: GameState.GameState, cat: Catalog, dt: real, now: int)
    requires PlotEntityModel.UniqueIDs(s.entities)
    ensures EntityPass(s, cat, dt, now).entities
            == Filter(Advanced(s.entities, cat, dt, now), (e: Entity) => !EntityLifecycle.IsDead(e))
  {
    var adv := Advanced(s.entities, cat, dt, now);
    var ids := DeadIDs(adv);
    AdvancedKeepsIDs(s.entities, cat, dt, now);
    forall x | x in adv
      ensures NotIn(ids)(x) == !EntityLifecycle.IsDead(x)
    {
      PlotEntityModel.IDsWhereMembers(adv, EntityLifecycle.IsDead, x.instanceID);
    }
    FilterCongruent(adv, NotIn(ids), (e: Entity) => !EntityLifecycle.IsDead(e));
  }

  /** GetPlot's position depends only on the plot ids. */
  lemma PlotIndexFollowsIDs(s: GameState.GameState, t: GameState.GameState, plotID: int)
    requires |s.plots| == |t.plots|
    requires forall k :: 0 <= k < |s.plots| ==> s.plots[k].plotID == t.plots[k].plotID
    ensures GameState.PlotIndex(s, plotID) == GameState.PlotIndex(t, plotID)
  {
    var a := GameState.PlotIndex(s, plotID);
    var b := GameState.PlotIndex(t, plotID);
    if a.Some? && b.Some? {
      assert !(a.value < b.value) && !(b.value < a.value);
    }
  }

  /**
   * Removing other ids first leaves an occupying entity where it was: it is
   * still found, still stands on the same plot position, and still occupies it.
   */
  lemma StillOccupies(s: GameState.GameState, init: seq<string>, instanceID: string)
    requires PlotEntityModel.UniqueIDs(s.entities)
    requires instanceID !in init && OccupiesItsPlot(s, instanceID)
    ensures var mid := RemoveDeadEntities(s, init);
            var e := GameState.GetFarmEntity(s, instanceID).value;
            GameState.GetFarmEntity(mid, instanceID) == Some(e)
            && GameState.PlotIndex(mid, e.associatedPlotID) == GameState.PlotIndex(s, e.associatedPlotID)
            && OccupiesItsPlot(mid, instanceID)
  {
    var mid := RemoveDeadEntities(s, init);
    var e := GameState.GetFarmEntity(s, instanceID).value;
    var k := GameState.PlotIndex(s, e.associatedPlotID).value;
    assert mid.plots[k] == s.plots[k];
    assert e in mid.entities;
    var found := GameState.GetFarmEntity(mid, instanceID).value;
    assert found in s.entities;
    PlotIndexFollowsIDs(s, mid, e.associatedPlotID);
  }

  /**
   * A listed id whose entity is the occupant of its own plot has that plot
   * emptied by the removal foreach, whatever is removed before or after it.
   */
  lemma {:induction false} RemovalFreesOccupiedPlot(s: GameState.GameState, ids: seq<string>, instanceID: string)
    requires PlotEntityModel.UniqueIDs(s.entities)
    requires instanceID in ids && OccupiesItsPlot(s, instanceID)
    ensures var plotID := GameState.GetFarmEntity(s, instanceID).value.associatedPlotID;
            var k := GameState.PlotIndex(s, plotID).value;
            RemoveDeadEntities(s, ids).plots[k] == PlotState.NewPlot(plotID)
    decreases |ids|
  {
    var e := GameState.GetFarmEntity(s, instanceID).value;
    var k := GameState.PlotIndex(s, e.associatedPlotID).value;
    var init := ids[..|ids| - 1];
    var last := ids[|ids| - 1];
    var mid := RemoveDeadEntities(s, init);
    var r := RemoveDeadEntity(mid, last);
    assert RemoveDeadEntities(s, ids) == r;
    var j :| 0 <= j < |ids| && ids[j] == instanceID;
    if j < |ids| - 1 {
      assert init[j] == instanceID;
    }
    if instanceID in init {
      RemovalFreesOccupiedPlot(s, init, instanceID);
      assert mid.plots[k] == PlotState.NewPlot(e.associatedPlotID);
      assert mid.plots[k].plotID == e.associatedPlotID;
    } else {
      assert instanceID == last;
      StillOccupies(s, init, instanceID);
      assert r.plots == mid.plots[k := PlotState.NewPlot(e.associatedPlotID)];
    }
  }

  /**
   * The plots after a pass: each one is either untouched or emptied, and it
   * is emptied only if its occupant was an entity dead after its tick.
   */
  lemma PassFreesOnlyTheDeadsPlots(s: GameState.GameState, cat: Catalog, dt: real, now: int)
    ensures var r := EntityPass(s, cat, dt, now);
            var adv := Advanced(s.entities, cat, dt, now);
            |r.plots| == |s.plots|
            && forall k :: 0 <= k < |s.plots| ==>
                 r.plots[k] == s.plots[k]
                 || (r.plots[k] == PlotState.NewPlot(s.plots[k].plotID)
                     && exists m :: 0 <= m < |adv| && EntityLifecycle.IsDead(adv[m])
                                    && adv[m].instanceID == s.plots[k].occupyingEntityInstanceID)
  {
    var adv := Advanced(s.entities, cat, dt, now);
    forall k | 0 <= k < |s.plots|
      ensures s.plots[k].occupyingEntityInstanceID in DeadIDs(adv) ==>
                exists m :: 0 <= m < |adv| && EntityLifecycle.IsDead(adv[m])
                            && adv[m].instanceID == s.plots[k].occupyingEntityInstanceID
    {
      PlotEntityModel.IDsWhereMembers(adv, EntityLifecycle.IsDead, s.plots[k].occupyingEntityInstanceID);
    }
  }

  /** With distinct ids, every entity dead after its tick that occupied its plot leaves that plot empty. */
  lemma PassFreesEveryDeadOccupantsPlot(s: GameState.GameState, cat: Catalog, dt: real, now: int, x: Entity)
    requires PlotEntityModel.UniqueIDs(s.entities)
    requires x in Advanced(s.entities, cat, dt, now) && EntityLifecycle.IsDead(x)
    requires OccupiesItsPlot(s.(entities := Advanced(s.entities, cat, dt, now)), x.instanceID)
    ensures var k := GameState.PlotIndex(s, x.associatedPlotID).value;
            EntityPass(s, cat, dt, now).plots[k] == PlotState.NewPlot(x.associatedPlotID)
  {
    var adv := Advanced(s.entities, cat, dt, now);
    var advanced := s.(entities := adv);
    AdvancedKeepsIDs(s.entities, cat, dt, now);
    var m :| 0 <= m < |adv| && adv[m] == x;
    PlotEntityModel.IDsWhereMembers(adv, EntityLifecycle.IsDead, x.instanceID);
    assert GameState.GetFarmEntity(advanced, x.instanceID).value == x;
    RemovalFreesOccupiedPlot(advanced, DeadIDs(adv), x.instanceID);
  }

  /** The four counters of GetEntityUpdateSummary. */
  datatype StateCounts = StateCounts(growing: nat, ready: nat, decaying: nat, dead: nat)

  function InState(st: EntityLifecycle.EntityState): Entity -> bool
  {
    (e: Entity) => e.currentState == st
  }

  /** The switch over every entity's state, one counter per state. */
  function CountStates(es: seq<Entity>): (c: StateCounts)
    ensures c.growing == Count(es, InState(EntityLifecycle.Growing))
    ensures c.ready == Count(es, InState(EntityLifecycle.ReadyToHarvest))
    ensures c.decaying == Count(es, InState(EntityLifecycle.Decaying))
    ensures c.dead == Count(es, InState(EntityLifecycle.Dead))
    ensures c.growing + c.ready + c.decaying + c.dead == |es|
    decreases |es|
  {
    if |es| == 0 then StateCounts(0, 0, 0, 0)
    else
      var c := CountStates(es[1..]);
      match es[0].currentState
      case Growing => c.(growing := c.growing + 1)
      case ReadyToHarvest => c.(ready := c.ready + 1)
      case Decaying => c.(decaying := c.decaying + 1)
      case Dead => c.(dead := c.dead + 1)
  }

  /** The summary line: "No entities" without game data, otherwise the four counts. */
  function GetEntityUpdateSummary(game: Nullable<GameState.GameState>): (r: string)
    ensures game.Null? <==> r == "No entities"
  {
    match game
    case Null => "No entities"
    case Some(s) =>
      var c := CountStates(s.entities);
      "Entities: " + NatToString(c.growing) + " growing, " + NatToString(c.ready) + " ready, "
      + NatToString(c.decaying) + " decaying, " + NatToString(c.dead) + " dead"
  }
}
