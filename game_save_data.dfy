/**
 * The save as the object the game keeps: the player object plus the three
 * lists, which its methods clear, append to and rewrite. Each method is
 * specified by the GameState function of the same name.
 */
module GameSaveData {
  import opened Wrappers
  import opened Seqs
  import opened GameSettings
  import opened Catalog
  import PlayerData
  import PlayerState
  import PlotState
  import EntityLifecycle
  import WorkerLifecycle
  import GameState

  /** The loop of List.RemoveAll: one pass keeping the entities with another id. */
  method RemoveAllWithID(all: seq<EntityLifecycle.Entity>, instanceID: string) returns (kept: seq<EntityLifecycle.Entity>)
    ensures kept == Filter(all, GameState.NotWithID(instanceID))
  {
    ghost var keep := GameState.NotWithID(instanceID);
    kept := [];
    var i := 0;
    while i < |all|
      invariant 0 <= i <= |all|
      invariant kept == Filter(all[..i], keep)
    {
      assert all[..i + 1] == all[..i] + [all[i]];
      FilterSnoc(all[..i], all[i], keep);
      assert keep(all[i]) == (all[i].instanceID != instanceID);
      if all[i].instanceID != instanceID {
        kept := kept + [all[i]];
      }
      i := i + 1;
    }
    assert all[..i] == all;
  }

  /** The for-loop of InitializeNewGame adding plots 0..n-1 (none when n is not positive). */
  method NumberedPlots(n: int) returns (plots: seq<PlotState.Plot>)
    ensures plots == GameState.FreshPlots(GameState.NonNegative(n))
  {
    plots := [];
    var i := 0;
    while i < n
      invariant 0 <= i <= GameState.NonNegative(n)
      invariant plots == GameState.FreshPlots(i)
    {
      plots := plots + [PlotState.NewPlot(i)];
      i := i + 1;
    }
  }

  /** The for-loop of InitializeNewGame hiring worker_0..worker_{n-1}. */
  method NumberedWorkers(n: int, now: int) returns (workers: seq<WorkerLifecycle.Worker>)
    ensures workers == GameState.FreshWorkers(GameState.NonNegative(n), now)
  {
    workers := [];
    var i := 0;
    while i < n
      invariant 0 <= i <= GameState.NonNegative(n)
      invariant workers == GameState.FreshWorkers(i, now)
    {
      workers := workers + [WorkerLifecycle.NewWorker(GameState.WorkerName(i), now)];
      i := i + 1;
    }
  }

  /** The foreach of UpdateOfflineProgress over the farm entities. */
  method CatchUpEntities(all: seq<EntityLifecycle.Entity>, cat: Catalog, now: int) returns (r: seq<EntityLifecycle.Entity>)
    ensures r == GameState.EntitiesCaughtUp(all, cat, now)
  {
    r := all;
    var i := 0;
    while i < |r|
      invariant 0 <= i <= |r| == |all|
      invariant r[..i] == GameState.EntitiesCaughtUp(all, cat, now)[..i]
      invariant r[i..] == all[i..]
    {
      var e := r[i];
      r := r[i := EntityLifecycle.UpdateFromOfflineTime(e, GetEntity(cat, e.entityID), now)];
      i := i + 1;
    }
    assert r == r[..i];
  }

  /** The foreach of UpdateOfflineProgress over the workers. */
  method CatchUpWorkers(all: seq<WorkerLifecycle.Worker>, now: int) returns (r: seq<WorkerLifecycle.Worker>)
    ensures r == GameState.WorkersCaughtUp(all, now)
  {
    r := all;
    var i := 0;
    while i < |r|
      invariant 0 <= i <= |r| == |all|
      invariant r[..i] == GameState.WorkersCaughtUp(all, now)[..i]
      invariant r[i..] == all[i..]
    {
      var w := r[i];
      r := r[i := WorkerLifecycle.UpdateFromOfflineTime(w, now)];
      i := i + 1;
    }
    assert r == r[..i];
  }

  /** The foreach of PrepareForSave giving every entity the current timestamp. */
  method StampAll(all: seq<EntityLifecycle.Entity>, now: int) returns (r: seq<EntityLifecycle.Entity>)
    ensures r == GameState.StampEntities(all, now)
  {
    r := all;
    var i := 0;
    while i < |r|
      invariant 0 <= i <= |r| == |all|
      invariant r[..i] == GameState.StampEntities(all, now)[..i]
      invariant r[i..] == all[i..]
    {
      r := r[i := r[i].(lastUpdateTimestamp := now)];
      i := i + 1;
    }
    assert r == r[..i];
  }

  class GameSaveData {
    var player: PlayerData.PlayerData
    var plots: seq<PlotState.Plot>
    var entities: seq<EntityLifecycle.Entity>
    var workers: seq<WorkerLifecycle.Worker>
    var saveTimestamp: int
    var totalPlayTimeSeconds: real
    var guidsIssued: nat

    function State(): GameState.GameState
      reads this, player
    {
      GameState.GameState(player.Value(), plots, entities, workers, saveTimestamp, totalPlayTimeSeconds, guidsIssued)
    }

    /** The JSON constructor: a default player and empty lists. */
    constructor (settings: Nullable<GameSettings>, now: int)
      ensures State() == GameState.EmptySave(settings, now, 0)
      ensures fresh(player)
    {
      player := new PlayerData.PlayerData(settings);
      plots := [];
      entities := [];
      workers := [];
      saveTimestamp := now;
      totalPlayTimeSeconds := 0.0;
      guidsIssued := 0;
    }

    method InitializeNewGame(settings: Nullable<GameSettings>, now: int)
      modifies this
      ensures State() == GameState.NewGame(settings, now, old(guidsIssued))
      ensures fresh(player)
    {
      player := new PlayerData.PlayerData(settings);
      plots := NumberedPlots(player.totalLandPlots);
      workers := NumberedWorkers(player.totalWorkersHired, now);
      entities := [];
      saveTimestamp := now;
      totalPlayTimeSeconds := 0.0;
    }

    function GetPlot(plotID: int): Nullable<PlotState.Plot>
      reads this, player
    {
      GameState.GetPlot(State(), plotID)
    }

    function GetFarmEntity(instanceID: string): Nullable<EntityLifecycle.Entity>
      reads this, player
    {
      GameState.GetFarmEntity(State(), instanceID)
    }

    function GetWorker(workerID: string): Nullable<WorkerLifecycle.Worker>
      reads this, player
    {
      GameState.GetWorker(State(), workerID)
    }

    method AddPlot()
      modifies this, player
      ensures player == old(player)
      ensures State() == GameState.AddPlot(old(State()))
    {
      plots := plots + [PlotState.NewPlot(|plots|)];
      player.totalLandPlots := |plots|;
    }

    method AddWorker(now: int)
      modifies this, player
      ensures player == old(player)
      ensures State() == GameState.AddWorker(old(State()), now)
    {
      workers := workers + [WorkerLifecycle.NewWorker(GameState.WorkerName(|workers|), now)];
      player.totalWorkersHired := |workers|;
    }

    method AddFarmEntity(entity: Nullable<EntityLifecycle.Entity>)
      modifies this
      ensures player == old(player)
      ensures State() == GameState.AddFarmEntity(old(State()), entity)
    {
      if entity.Some? && entity.value.instanceID != "" {
        entities := entities + [entity.value];
      }
    }

    /** RemoveAll: keep, in order, the entities whose id differs. */
    method RemoveFarmEntity(instanceID: string)
      modifies this
      ensures player == old(player)
      ensures State() == GameState.RemoveFarmEntity(old(State()), instanceID)
    {
      entities := RemoveAllWithID(entities, instanceID);
    }

    function GetIdleWorkers(): seq<WorkerLifecycle.Worker>
      reads this, player
    {
      GameState.GetIdleWorkers(State())
    }

    function GetBusyWorkers(): seq<WorkerLifecycle.Worker>
      reads this, player
    {
      GameState.GetBusyWorkers(State())
    }

    /** Every entity, then every worker, catches up; then the busy count is resynced. */
    method UpdateOfflineProgress(cat: Catalog, now: int)
      modifies this, player
      ensures player == old(player)
      ensures State() == GameState.UpdateOfflineProgress(old(State()), cat, now)
    {
      entities := CatchUpEntities(entities, cat, now);
      workers := CatchUpWorkers(workers, now);
      player.busyWorkersCount := |GetBusyWorkers()|;
    }

    /** Stamp the save, reserialise the inventory, resync the busy count and stamp every entity. */
    method PrepareForSave(now: int)
      modifies this, player
      ensures player == old(player)
      ensures State() == GameState.PrepareForSave(old(State()), now)
    {
      saveTimestamp := now;
      player.SerializeInventory();
      player.busyWorkersCount := |GetBusyWorkers()|;
      entities := StampAll(entities, now);
    }

    method PrepareAfterLoad(cat: Catalog, now: int)
      modifies this, player
      ensures player == old(player)
      ensures State() == GameState.PrepareAfterLoad(old(State()), cat, now)
    {
      player.DeserializeInventory();
      UpdateOfflineProgress(cat, now);
    }

    predicate IsValidSave()
      reads this, player
    {
      GameState.IsValidSave(State())
    }
  }
}
