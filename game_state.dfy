/**
 * The whole save as a value: the player, the plot, farm-entity and worker
 * lists and the meta fields. `guidsIssued` is how many fresh instance ids
 * have been drawn from the id supply `guid: nat -> string` that stands for
 * Guid.NewGuid.
 */
module GameState {
  import opened Wrappers
  import opened Seqs
  import opened Text
  import opened GameSettings
  import opened Catalog
  import PlayerState
  import PlotState
  import EntityLifecycle
  import WorkerLifecycle

  datatype GameState = GameState(
    player: PlayerState.Player,
    plots: seq<PlotState.Plot>,
    entities: seq<EntityLifecycle.Entity>,
    workers: seq<WorkerLifecycle.Worker>,
    saveTimestamp: int,
    totalPlayTimeSeconds: real,
    guidsIssued: nat)

  function NonNegative(n: int): nat { if n < 0 then 0 else n }

  /** The id of the i-th hired worker. */
  function WorkerName(i: nat): string
  {
    "worker_" + NatToString(i)
  }

  /** The plots 0..n-1, all empty. */
  function FreshPlots(n: nat): (plots: seq<PlotState.Plot>)
    ensures |plots| == n
    ensures forall i :: 0 <= i < n ==> plots[i] == PlotState.NewPlot(i)
  {
    seq(n, i => PlotState.NewPlot(i))
  }

  /** The workers worker_0..worker_{n-1}, all idle. */
  function FreshWorkers(n: nat, now: int): (workers: seq<WorkerLifecycle.Worker>)
    ensures |workers| == n
    ensures forall i :: 0 <= i < n ==> workers[i] == WorkerLifecycle.NewWorker(WorkerName(i), now)
  {
    seq(n, i requires 0 <= i < n => WorkerLifecycle.NewWorker(WorkerName(i), now))
  }

  /**
   * InitializeNewGame: fresh player defaults (the InitializeForNewGame call
   * on them is taken to change nothing), one empty plot per starting
   * plot, one idle worker per starting worker and no farm entities.
   */
  function NewGame(settings: Nullable<GameSettings>, now: int, guidsIssued: nat): (s: GameState)
    ensures s.player == PlayerState.InitialPlayer(settings)
    ensures |s.plots| == NonNegative(s.player.totalLandPlots)
    ensures forall i :: 0 <= i < |s.plots| ==> s.plots[i] == PlotState.NewPlot(i)
    ensures |s.workers| == NonNegative(s.player.totalWorkersHired)
    ensures forall i :: 0 <= i < |s.workers| ==> s.workers[i] == WorkerLifecycle.NewWorker(WorkerName(i), now)
    ensures s.entities == []
    ensures s.saveTimestamp == now && s.totalPlayTimeSeconds == 0.0
  {
    var player := PlayerState.InitialPlayer(settings);
    GameState(player, FreshPlots(NonNegative(player.totalLandPlots)), [],
              FreshWorkers(NonNegative(player.totalWorkersHired), now), now, 0.0, guidsIssued)
  }

  /** The JSON constructor's state: default player, empty lists. */
  function EmptySave(settings: Nullable<GameSettings>, now: int, guidsIssued: nat): (s: GameState)
    ensures s.plots == [] && s.entities == [] && s.workers == []
    ensures s.player == PlayerState.InitialPlayer(settings)
  {
    GameState(PlayerState.InitialPlayer(settings), [], [], [], now, 0.0, guidsIssued)
  }

  function GetPlot(s: GameState, plotID: int): (r: Nullable<PlotState.Plot>)
    ensures r.Null? <==> forall j :: 0 <= j < |s.plots| ==> s.plots[j].plotID != plotID
    ensures r.Some? ==> r.value.plotID == plotID && r.value in s.plots
  {
    FirstWhere(s.plots, (p: PlotState.Plot) => p.plotID == plotID)
  }

  /** The list position GetPlot finds. */
  function PlotIndex(s: GameState, plotID: int): (r: Nullable<nat>)
    ensures r.Null? <==> GetPlot(s, plotID).Null?
    ensures r.Some? ==> r.value < |s.plots| && s.plots[r.value] == GetPlot(s, plotID).value
    ensures r.Some? ==> s.plots[r.value].plotID == plotID && forall j :: 0 <= j < r.value ==> s.plots[j].plotID != plotID
  {
    FirstIndex(s.plots, (p: PlotState.Plot) => p.plotID == plotID)
  }

  function GetFarmEntity(s: GameState, instanceID: string): (r: Nullable<EntityLifecycle.Entity>)
    ensures r.Null? <==> forall j :: 0 <= j < |s.entities| ==> s.entities[j].instanceID != instanceID
    ensures r.Some? ==> r.value.instanceID == instanceID && r.value in s.entities
  {
    FirstWhere(s.entities, (e: EntityLifecycle.Entity) => e.instanceID == instanceID)
  }

  function GetWorker(s: GameState, workerID: string): (r: Nullable<WorkerLifecycle.Worker>)
    ensures r.Null? <==> forall j :: 0 <= j < |s.workers| ==> s.workers[j].workerID != workerID
    ensures r.Some? ==> r.value.workerID == workerID && r.value in s.workers
  {
    FirstWhere(s.workers, (w: WorkerLifecycle.Worker) => w.workerID == workerID)
  }

  /** Every plot's id is its list position. */
  predicate PlotIdsMatchIndex(s: GameState)
  {
    forall i :: 0 <= i < |s.plots| ==> s.plots[i].plotID == i
  }

  /** With ids equal to positions, GetPlot is indexing. */
  lemma PlotLookupIsIndexing(s: GameState, plotID: int)
    requires PlotIdsMatchIndex(s)
    ensures GetPlot(s, plotID).Some? <==> 0 <= plotID < |s.plots|
    ensures 0 <= plotID < |s.plots| ==> PlotIndex(s, plotID) == Some(plotID as nat)
  {
    if 0 <= plotID < |s.plots| {
      assert s.plots[plotID].plotID == plotID;
    }
  }

  function EntityIndex(s: GameState, instanceID: string): (r: Nullable<nat>)
    ensures r.Null? <==> GetFarmEntity(s, instanceID).Null?
    ensures r.Some? ==> r.value < |s.entities| && s.entities[r.value] == GetFarmEntity(s, instanceID).value
    ensures r.Some? ==> forall j :: 0 <= j < r.value ==> s.entities[j].instanceID != instanceID
  {
    FirstIndex(s.entities, (e: EntityLifecycle.Entity) => e.instanceID == instanceID)
  }

  function WorkerIndex(s: GameState, workerID: string): (r: Nullable<nat>)
    ensures r.Null? <==> GetWorker(s, workerID).Null?
    ensures r.Some? ==> r.value < |s.workers| && s.workers[r.value] == GetWorker(s, workerID).value
    ensures r.Some? ==> forall j :: 0 <= j < r.value ==> s.workers[j].workerID != workerID
  {
    FirstIndex(s.workers, (w: WorkerLifecycle.Worker) => w.workerID == workerID)
  }

  /**
   * UpdatePlot: the stored plot with p's id takes p's state and occupant and
   * is validated. Since it has p's id, it becomes ValidateState(p).
   */
  function UpdatePlot(s: GameState, p: PlotState.Plot): (r: GameState)
    ensures GetPlot(s, p.plotID).Null? ==> r == s
    ensures r == s.(plots := r.plots)
    ensures |r.plots| == |s.plots|
    ensures forall i :: 0 <= i < |s.plots| ==> r.plots[i].plotID == s.plots[i].plotID
    ensures PlotIndex(s, p.plotID).Some? ==>
              (forall i :: 0 <= i < |s.plots| && i != PlotIndex(s, p.plotID).value ==> r.plots[i] == s.plots[i])
    ensures PlotIndex(s, p.plotID).Some? ==> r.plots[PlotIndex(s, p.plotID).value] == PlotState.ValidateState(p)
    ensures GetPlot(s, p.plotID).Some? ==> GetPlot(r, p.plotID) == Some(PlotState.ValidateState(p))
  {
    match PlotIndex(s, p.plotID)
    case Null => s
    case Some(j) =>
      var existing := s.plots[j];
      var copied := existing.(plotState := p.plotState, occupyingEntityInstanceID := p.occupyingEntityInstanceID);
      assert copied == p;
      var r := s.(plots := s.plots[j := PlotState.ValidateState(copied)]);
      assert forall i :: 0 <= i < j ==> r.plots[i] == s.plots[i];
      r
  }

  /** UpdateFarmEntity: the stored entity with e's id takes e's state and timestamp, and nothing else. */
  function UpdateFarmEntity(s: GameState, e: EntityLifecycle.Entity): (r: GameState)
    ensures GetFarmEntity(s, e.instanceID).Null? ==> r == s
    ensures r == s.(entities := r.entities)
    ensures |r.entities| == |s.entities|
    ensures EntityIndex(s, e.instanceID).Some? ==>
              var j := EntityIndex(s, e.instanceID).value;
              (forall i :: 0 <= i < |s.entities| && i != j ==> r.entities[i] == s.entities[i])
              && r.entities[j] == s.entities[j].(currentState := e.currentState, lastUpdateTimestamp := e.lastUpdateTimestamp)
  {
    match EntityIndex(s, e.instanceID)
    case Null => s
    case Some(j) =>
      var existing := s.entities[j];
      s.(entities := s.entities[j := existing.(currentState := e.currentState, lastUpdateTimestamp := e.lastUpdateTimestamp)])
  }

  /** An entity that differs from its stored copy only in state and timestamp is written back whole. */
  lemma UpdateFarmEntityWritesBack(s: GameState, e: EntityLifecycle.Entity)
    requires GetFarmEntity(s, e.instanceID).Some?
    requires e == GetFarmEntity(s, e.instanceID).value.(currentState := e.currentState, lastUpdateTimestamp := e.lastUpdateTimestamp)
    ensures GetFarmEntity(UpdateFarmEntity(s, e), e.instanceID) == Some(e)
  {
    var j := EntityIndex(s, e.instanceID).value;
    var r := UpdateFarmEntity(s, e);
    assert r.entities[j] == e;
    assert forall i :: 0 <= i < j ==> r.entities[i] == s.entities[i];
    assert FirstIndex(r.entities, (x: EntityLifecycle.Entity) => x.instanceID == e.instanceID) == Some(j);
  }

  /** UpdateWorker: the stored worker with w's id takes all five mutable fields, so it becomes w. */
  function UpdateWorker(s: GameState, w: WorkerLifecycle.Worker): (r: GameState)
    ensures GetWorker(s, w.workerID).Null? ==> r == s
    ensures r == s.(workers := r.workers)
    ensures |r.workers| == |s.workers|
    ensures WorkerIndex(s, w.workerID).Some? ==>
              (forall i :: 0 <= i < |s.workers| && i != WorkerIndex(s, w.workerID).value ==> r.workers[i] == s.workers[i])
    ensures GetWorker(s, w.workerID).Some? ==> GetWorker(r, w.workerID) == Some(w)
  {
    match WorkerIndex(s, w.workerID)
    case Null => s
    case Some(j) =>
      var existing := s.workers[j];
      var copied := existing.(state := w.state, assignedTask := w.assignedTask,
                              taskTargetInstanceID := w.taskTargetInstanceID,
                              timeRemainingOnTask := w.timeRemainingOnTask,
                              lastUpdateTimestamp := w.lastUpdateTimestamp);
      assert copied == w;
      var r := s.(workers := s.workers[j := copied]);
      assert forall i :: 0 <= i < j ==> r.workers[i] == s.workers[i] && s.workers[i].workerID != w.workerID;
      assert r.workers[j] == w;
      r
  }

  /** AddPlot: append the plot whose id is the old count; the player's plot total follows the list. */
  function AddPlot(s: GameState): (r: GameState)
    ensures r.plots == s.plots + [PlotState.NewPlot(|s.plots|)]
    ensures r.player.totalLandPlots == |r.plots|
    ensures r.entities == s.entities && r.workers == s.workers
  {
    var plots := s.plots + [PlotState.NewPlot(|s.plots|)];
    s.(plots := plots, player := s.player.(totalLandPlots := |plots|))
  }

  /** AddWorker: append idle worker_{old count}; the player's hired total follows the list. */
  function AddWorker(s: GameState, now: int): (r: GameState)
    ensures r.workers == s.workers + [WorkerLifecycle.NewWorker(WorkerName(|s.workers|), now)]
    ensures r.player.totalWorkersHired == |r.workers|
    ensures r.plots == s.plots && r.entities == s.entities
  {
    var workers := s.workers + [WorkerLifecycle.NewWorker(WorkerName(|s.workers|), now)];
    s.(workers := workers, player := s.player.(totalWorkersHired := |workers|))
  }

  /** AddFarmEntity ignores a null entity and an empty instance id. */
  function AddFarmEntity(s: GameState, entity: Nullable<EntityLifecycle.Entity>): (r: GameState)
    ensures entity.Null? || entity.value.instanceID == "" ==> r == s
    ensures entity.Some? && entity.value.instanceID != "" ==> r == s.(entities := s.entities + [entity.value])
  {
    if entity.Some? && entity.value.instanceID != "" then s.(entities := s.entities + [entity.value]) else s
  }

  predicate HasInstanceID(e: EntityLifecycle.Entity, instanceID: string)
  {
    e.instanceID == instanceID
  }

  /** The RemoveAll predicate's negation: keep the entities with another id. */
  function NotWithID(instanceID: string): EntityLifecycle.Entity -> bool
  {
    (e: EntityLifecycle.Entity) => !HasInstanceID(e, instanceID)
  }

  /** RemoveFarmEntity removes every entity with that id, and only those. */
  function RemoveFarmEntity(s: GameState, instanceID: string): (r: GameState)
    ensures forall e :: e in r.entities <==> e in s.entities && e.instanceID != instanceID
    ensures forall e: EntityLifecycle.Entity :: e.instanceID != instanceID ==> multiset(r.entities)[e] == multiset(s.entities)[e]
    ensures r == s.(entities := r.entities)
  {
    FilterMultiset(s.entities, NotWithID(instanceID));
    s.(entities := Filter(s.entities, NotWithID(instanceID)))
  }

  function GetIdleWorkers(s: GameState): (r: seq<WorkerLifecycle.Worker>)
    ensures forall w :: w in r <==> w in s.workers && WorkerLifecycle.IsIdle(w)
  {
    Filter(s.workers, WorkerLifecycle.IsIdle)
  }

  function GetBusyWorkers(s: GameState): (r: seq<WorkerLifecycle.Worker>)
    ensures forall w :: w in r <==> w in s.workers && WorkerLifecycle.IsBusy(w)
  {
    Filter(s.workers, WorkerLifecycle.IsBusy)
  }

  /** Idle and busy split the worker list: every worker is in exactly one of the two. */
  lemma IdleAndBusyPartitionWorkers(s: GameState)
    ensures |GetIdleWorkers(s)| + |GetBusyWorkers(s)| == |s.workers|
    ensures multiset(GetIdleWorkers(s)) + multiset(GetBusyWorkers(s)) == multiset(s.workers)
  {
    FilterPartition(s.workers, WorkerLifecycle.IsIdle, WorkerLifecycle.IsBusy);
  }

  /** The player's busy counter agrees with the worker list. */
  predicate BusyCountSynced(s: GameState)
  {
    s.player.busyWorkersCount == |GetBusyWorkers(s)|
  }

  /** The busy-count sync of PrepareForSave and UpdateOfflineProgress. */
  function SyncBusyWorkers(s: GameState): (r: GameState)
    ensures BusyCountSynced(r)
    ensures r.plots == s.plots && r.entities == s.entities && r.workers == s.workers
    ensures r.player == s.player.(busyWorkersCount := r.player.busyWorkersCount)
  {
    s.(player := s.player.(busyWorkersCount := |GetBusyWorkers(s)|))
  }

  lemma SyncBusyWorkersIdempotent(s: GameState)
    ensures SyncBusyWorkers(SyncBusyWorkers(s)) == SyncBusyWorkers(s)
    ensures BusyCountSynced(s) ==> SyncBusyWorkers(s) == s
  {
  }

  /** Each entity caught up on its offline seconds with its own definition. */
  function EntitiesCaughtUp(entities: seq<EntityLifecycle.Entity>, cat: Catalog, now: int): (r: seq<EntityLifecycle.Entity>)
    ensures |r| == |entities|
    ensures forall i :: 0 <= i < |r| ==>
              r[i] == EntityLifecycle.UpdateFromOfflineTime(entities[i], GetEntity(cat, entities[i].entityID), now)
  {
    seq(|entities|, i requires 0 <= i < |entities| =>
      EntityLifecycle.UpdateFromOfflineTime(entities[i], GetEntity(cat, entities[i].entityID), now))
  }

  function WorkersCaughtUp(workers: seq<WorkerLifecycle.Worker>, now: int): (r: seq<WorkerLifecycle.Worker>)
    ensures |r| == |workers|
    ensures forall i :: 0 <= i < |r| ==> r[i] == WorkerLifecycle.UpdateFromOfflineTime(workers[i], now)
  {
    seq(|workers|, i requires 0 <= i < |workers| => WorkerLifecycle.UpdateFromOfflineTime(workers[i], now))
  }

  /**
   * UpdateOfflineProgress: every entity, then every worker, catches up to
   * `now`; completed tasks are not dispatched; the busy count is resynced.
   */
  function UpdateOfflineProgress(s: GameState, cat: Catalog, now: int): (r: GameState)
    ensures BusyCountSynced(r)
    ensures r.entities == EntitiesCaughtUp(s.entities, cat, now)
    ensures r.workers == WorkersCaughtUp(s.workers, now)
    ensures r.plots == s.plots
  {
    SyncBusyWorkers(s.(entities := EntitiesCaughtUp(s.entities, cat, now), workers := WorkersCaughtUp(s.workers, now)))
  }

  function StampEntities(entities: seq<EntityLifecycle.Entity>, now: int): (r: seq<EntityLifecycle.Entity>)
    ensures |r| == |entities|
    ensures forall i :: 0 <= i < |r| ==> r[i] == entities[i].(lastUpdateTimestamp := now)
  {
    seq(|entities|, i requires 0 <= i < |entities| => entities[i].(lastUpdateTimestamp := now))
  }

  /** PrepareForSave: stamp the save, reserialise the inventory, resync the busy count, stamp every entity. */
  function PrepareForSave(s: GameState, now: int): (r: GameState)
    ensures r.saveTimestamp == now
    ensures BusyCountSynced(r)
    ensures r.player.inventoryKeys == PlayerState.SerializeInventory(s.player).inventoryKeys
    ensures r.player.inventoryValues == PlayerState.SerializeInventory(s.player).inventoryValues
    ensures r.entities == StampEntities(s.entities, now)
  {
    var s1 := s.(saveTimestamp := now, player := PlayerState.SerializeInventory(s.player));
    SyncBusyWorkers(s1).(entities := StampEntities(s.entities, now))
  }

  /** PrepareAfterLoad: rebuild the inventory dictionary, then catch up on the offline time. */
  function PrepareAfterLoad(s: GameState, cat: Catalog, now: int): (r: GameState)
    ensures BusyCountSynced(r)
    ensures r.player == PlayerState.DeserializeInventory(s.player).(busyWorkersCount := r.player.busyWorkersCount)
    ensures r.entities == EntitiesCaughtUp(s.entities, cat, now)
    ensures r.workers == WorkersCaughtUp(s.workers, now)
    ensures r.plots == s.plots
  {
    UpdateOfflineProgress(s.(player := PlayerState.DeserializeInventory(s.player)), cat, now)
  }

  /** IsValidSave: the lists' lengths agree with the player's plot and worker totals. */
  predicate IsValidSave(s: GameState)
  {
    |s.plots| == s.player.totalLandPlots && |s.workers| == s.player.totalWorkersHired
  }

  /** A new game (with non-negative starting totals) is valid, numbered, consistent and synced. */
  lemma NewGameIsValid(settings: Nullable<GameSettings>, now: int, guidsIssued: nat)
    requires settings.Some? ==> settings.value.startingPlots >= 0 && settings.value.startingWorkers >= 0
    ensures var s := NewGame(settings, now, guidsIssued);
            IsValidSave(s) && PlotIdsMatchIndex(s) && BusyCountSynced(s)
            && (forall i :: 0 <= i < |s.plots| ==> PlotState.Consistent(s.plots[i]))
  {
    var s := NewGame(settings, now, guidsIssued);
    assert forall j :: 0 <= j < |s.workers| ==> !WorkerLifecycle.IsBusy(s.workers[j]);
    assert Count(s.workers, WorkerLifecycle.IsBusy) == 0;
  }

  /** AddPlot and AddWorker keep the save valid and the plots numbered by position. */
  lemma AddPlotAndAddWorkerKeepValid(s: GameState, now: int)
    requires IsValidSave(s) && PlotIdsMatchIndex(s)
    ensures IsValidSave(AddPlot(s)) && PlotIdsMatchIndex(AddPlot(s))
    ensures IsValidSave(AddWorker(s, now)) && PlotIdsMatchIndex(AddWorker(s, now))
  {
  }

  /** Removing an entity leaves no entity with that id and keeps every other one. */
  lemma RemoveFarmEntityRemovesExactly(s: GameState, instanceID: string)
    ensures GetFarmEntity(RemoveFarmEntity(s, instanceID), instanceID).Null?
    ensures |RemoveFarmEntity(s, instanceID).entities| == |s.entities| - Count(s.entities, (e: EntityLifecycle.Entity) => HasInstanceID(e, instanceID))
  {
    var keep := NotWithID(instanceID);
    var drop := (e: EntityLifecycle.Entity) => HasInstanceID(e, instanceID);
    FilterPartition(s.entities, keep, drop);
    var r := RemoveFarmEntity(s, instanceID);
    forall j | 0 <= j < |r.entities| ensures r.entities[j].instanceID != instanceID {
      assert r.entities[j] in r.entities;
    }
  }
}
