/**
 * The farm-entity update manager as the object the game keeps: its speed
 * factor, its initialised flag, and the per-tick pass over the save's
 * entity list. The interval, which the source reads from the game update
 * manager, is a parameter.
 */
module FarmEntityUpdateManager {
  import opened Wrappers
  import opened Catalog
  import PlotState
  import EntityLifecycle
  import GameState
  import GameSaveData
  import GameDataProvider
  import FarmEntityUpdate

  /** RemoveDeadEntity on the save object. */
  method RemoveDeadEntity(game: GameSaveData.GameSaveData, instanceID: string)
    modifies game
    ensures game.player == old(game.player)
    ensures game.State() == FarmEntityUpdate.RemoveDeadEntity(old(game.State()), instanceID)
  {
    var entity := GameState.GetFarmEntity(game.State(), instanceID);
    if entity.Null? {
      return;
    }
    var plot := GameState.GetPlot(game.State(), entity.value.associatedPlotID);
    if plot.Some? && plot.value.occupyingEntityInstanceID == instanceID {
      var cleared := plot.value.(plotState := PlotState.Empty, occupyingEntityInstanceID := "");
      GameDataProvider.UpdatePlot(game, cleared);
    }
    game.RemoveFarmEntity(instanceID);
  }

  class FarmEntityUpdateManager {
    var updateSpeed: real
    var isInitialized: bool

    constructor ()
      ensures updateSpeed == 1.0 && !isInitialized
    {
      updateSpeed := 1.0;
      isInitialized := false;
    }

    /** Start: subscribe to the timers (not modelled) and mark the manager ready. */
    method Start()
      modifies this
      ensures isInitialized && updateSpeed == old(updateSpeed)
    {
      isInitialized := true;
    }

    /**
     * UpdateAllFarmEntities: the foreach ticks every entity in place and
     * collects the dead ids, the second foreach removes them, and the
     * result says whether the manager asks for a save.
     */
    method UpdateAllFarmEntities(game: GameSaveData.GameSaveData?, cat: Catalog, farmEntityUpdateInterval: real, now: int)
      returns (saveRequested: bool)
      modifies if game == null then {} else {game}
      ensures game != null ==> game.player == old(game.player)
      ensures var r := FarmEntityUpdate.UpdateAllFarmEntities(isInitialized, if game == null then Null else Some(old(game.State())),
                                                              cat, farmEntityUpdateInterval, updateSpeed, now);
              saveRequested == r.1 && (game != null ==> Some(game.State()) == r.0)
    {
      if !isInitialized || game == null {
        return false;
      }
      ghost var s0 := game.State();
      var dt := FarmEntityUpdate.StepLength(farmEntityUpdateInterval, updateSpeed);
      var entitiesToRemove;
      entitiesToRemove, saveRequested := TickEntities(game, cat, dt, now);
      RemoveDeadEntities(game, entitiesToRemove);
    }
  }

  /** The first foreach: tick every entity in place, collect the dead ids and note any change. */
  method TickEntities(game: GameSaveData.GameSaveData, cat: Catalog, dt: real, now: int)
    returns (entitiesToRemove: seq<string>, entitiesUpdated: bool)
    modifies game
    ensures game.player == old(game.player)
    ensures game.State() == old(game.State()).(entities := FarmEntityUpdate.Advanced(old(game.entities), cat, dt, now))
    ensures entitiesToRemove == FarmEntityUpdate.DeadIDs(FarmEntityUpdate.Advanced(old(game.entities), cat, dt, now))
    ensures entitiesUpdated == FarmEntityUpdate.SaveRequested(old(game.entities), FarmEntityUpdate.Advanced(old(game.entities), cat, dt, now))
  {
    ghost var start := game.State();
    ghost var advanced := FarmEntityUpdate.Advanced(start.entities, cat, dt, now);
    entitiesUpdated := false;
    entitiesToRemove := [];
    var i := 0;
    while i < |game.entities|
      invariant |game.entities| == |start.entities|
      invariant 0 <= i <= |game.entities|
      invariant game.player == old(game.player)
      invariant game.plots == start.plots && game.workers == start.workers
      invariant game.saveTimestamp == start.saveTimestamp && game.totalPlayTimeSeconds == start.totalPlayTimeSeconds
      invariant game.guidsIssued == start.guidsIssued
      invariant game.entities == advanced[..i] + start.entities[i..]
      invariant entitiesToRemove == FarmEntityUpdate.DeadIDs(advanced[..i])
      invariant entitiesUpdated <==> FarmEntityUpdate.SaveRequested(start.entities[..i], advanced[..i])
    {
      assert game.entities[i] == start.entities[i];
      var entity, changed := TickAt(game, i, cat, dt, now);
      assert entity == advanced[i];
      SpliceStep(advanced, start.entities, i);
      NextTick(start.entities, advanced, i);
      if changed {
        entitiesUpdated := true;
      }
      if EntityLifecycle.IsDead(entity) {
        entitiesToRemove := entitiesToRemove + [entity.instanceID];
        entitiesUpdated := true;
      }
      i := i + 1;
    }
    assert advanced[..i] == advanced && start.entities[..i] == start.entities;
    assert game.entities == advanced;
  }

  /** The foreach body's update: the i-th entity is ticked in place; the result says whether it changed. */
  method TickAt(game: GameSaveData.GameSaveData, i: nat, cat: Catalog, dt: real, now: int)
    returns (entity: EntityLifecycle.Entity, changed: bool)
    requires i < |game.entities|
    modifies game
    ensures game.player == old(game.player)
    ensures entity == FarmEntityUpdate.Tick(old(game.entities[i]), cat, dt, now)
    ensures game.entities == old(game.entities)[i := entity]
    ensures game.plots == old(game.plots) && game.workers == old(game.workers)
    ensures game.saveTimestamp == old(game.saveTimestamp) && game.totalPlayTimeSeconds == old(game.totalPlayTimeSeconds)
    ensures game.guidsIssued == old(game.guidsIssued)
    ensures changed == FarmEntityUpdate.Changed(old(game.entities[i]), entity)
  {
    entity := game.entities[i];
    var previousState := entity.currentState;
    var previousProducts := entity.accumulatedProducts;
    entity := FarmEntityUpdate.Tick(entity, cat, dt, now);
    game.entities := game.entities[i := entity];
    changed := entity.currentState != previousState || entity.accumulatedProducts != previousProducts;
  }

  /** Writing the i-th new element over the old list moves the splice point by one. */
  lemma SpliceStep<T>(a: seq<T>, b: seq<T>, i: nat)
    requires |a| == |b| && i < |a|
    ensures (a[..i] + b[i..])[i := a[i]] == a[..i + 1] + b[i + 1..]
  {
  }

  /** What one more entity adds to the collected ids and to the change flag. */
  lemma NextTick(before: seq<EntityLifecycle.Entity>, after: seq<EntityLifecycle.Entity>, i: nat)
    requires |before| == |after| && i < |after|
    ensures FarmEntityUpdate.DeadIDs(after[..i + 1])
            == FarmEntityUpdate.DeadIDs(after[..i]) + (if EntityLifecycle.IsDead(after[i]) then [after[i].instanceID] else [])
    ensures FarmEntityUpdate.SaveRequested(before[..i + 1], after[..i + 1])
            <==> FarmEntityUpdate.SaveRequested(before[..i], after[..i])
                 || FarmEntityUpdate.Changed(before[i], after[i]) || EntityLifecycle.IsDead(after[i])
  {
    assert after[..i + 1][..i] == after[..i];
    var b := before[..i + 1];
    var a := after[..i + 1];
    if FarmEntityUpdate.SaveRequested(before[..i], after[..i]) {
      var j :| 0 <= j < i && (FarmEntityUpdate.Changed(before[..i][j], after[..i][j]) || EntityLifecycle.IsDead(after[..i][j]));
      assert FarmEntityUpdate.Changed(b[j], a[j]) || EntityLifecycle.IsDead(a[j]);
    }
    if FarmEntityUpdate.Changed(before[i], after[i]) || EntityLifecycle.IsDead(after[i]) {
      assert FarmEntityUpdate.Changed(b[i], a[i]) || EntityLifecycle.IsDead(a[i]);
    }
    if FarmEntityUpdate.SaveRequested(b, a) {
      var j :| 0 <= j < i + 1 && (FarmEntityUpdate.Changed(b[j], a[j]) || EntityLifecycle.IsDead(a[j]));
      if j < i {
        assert FarmEntityUpdate.Changed(before[..i][j], after[..i][j]) || EntityLifecycle.IsDead(after[..i][j]);
      }
    }
  }

  /** The second foreach: remove each collected id in turn. */
  method RemoveDeadEntities(game: GameSaveData.GameSaveData, ids: seq<string>)
    modifies game
    ensures game.player == old(game.player)
    ensures game.State() == FarmEntityUpdate.RemoveDeadEntities(old(game.State()), ids)
  {
    ghost var start := game.State();
    var k := 0;
    while k < |ids|
      invariant 0 <= k <= |ids|
      invariant game.player == old(game.player)
      invariant game.State() == FarmEntityUpdate.RemoveDeadEntities(start, ids[..k])
    {
      RemoveDeadEntity(game, ids[k]);
      assert ids[..k + 1][..k] == ids[..k];
      k := k + 1;
    }
    assert ids[..k] == ids;
  }
}
