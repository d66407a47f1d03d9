/**
 * The worker service: order-preserving queries over the loaded save's
 * worker list (empty without game data) and the busy-count sync.
 */
module WorkerService {
  import opened Wrappers
  import opened Seqs
  import Text
  import WorkerLifecycle
  import GameState
  import GameSaveData

  type Worker = WorkerLifecycle.Worker

  /** GetAllWorkers: the save's list, or an empty list without game data. */
  function GetAllWorkers(game: Nullable<GameState.GameState>): seq<Worker>
  {
    if game.Some? then game.value.workers else []
  }

  function GetIdleWorkers(game: Nullable<GameState.GameState>): (r: seq<Worker>)
    ensures forall w :: w in r <==> w in GetAllWorkers(game) && WorkerLifecycle.IsIdle(w)
  {
    Filter(GetAllWorkers(game), WorkerLifecycle.IsIdle)
  }

  function GetBusyWorkers(game: Nullable<GameState.GameState>): (r: seq<Worker>)
    ensures forall w :: w in r <==> w in GetAllWorkers(game) && WorkerLifecycle.IsBusy(w)
  {
    Filter(GetAllWorkers(game), WorkerLifecycle.IsBusy)
  }

  /** GetWorkerByID: the first worker with that id, or null. */
  function GetWorkerByID(game: Nullable<GameState.GameState>, workerID: string): (r: Nullable<Worker>)
    ensures r.Null? <==> forall j :: 0 <= j < |GetAllWorkers(game)| ==> GetAllWorkers(game)[j].workerID != workerID
    ensures r.Some? ==> exists i :: 0 <= i < |GetAllWorkers(game)| && GetAllWorkers(game)[i] == r.value
                                    && r.value.workerID == workerID
                                    && forall j :: 0 <= j < i ==> GetAllWorkers(game)[j].workerID != workerID
  {
    FirstWhere(GetAllWorkers(game), (w: Worker) => w.workerID == workerID)
  }

  function GetAvailableWorkerCount(game: Nullable<GameState.GameState>): nat
  {
    |GetIdleWorkers(game)|
  }

  function GetTotalWorkerCount(game: Nullable<GameState.GameState>): nat
  {
    |GetAllWorkers(game)|
  }

  predicate HasAvailableWorkers(game: Nullable<GameState.GameState>)
  {
    GetAvailableWorkerCount(game) > 0
  }

  /**
   * The counts describe the list: idle and busy add up to the total, the
   * idle count is the number of idle workers, and a worker is available
   * exactly when some worker is idle.
   */
  lemma WorkerCountsDescribeList(game: Nullable<GameState.GameState>)
    ensures GetAvailableWorkerCount(game) + |GetBusyWorkers(game)| == GetTotalWorkerCount(game)
    ensures GetAvailableWorkerCount(game) == Count(GetAllWorkers(game), WorkerLifecycle.IsIdle)
    ensures HasAvailableWorkers(game) <==> exists j :: 0 <= j < |GetAllWorkers(game)| && WorkerLifecycle.IsIdle(GetAllWorkers(game)[j])
    ensures game.Null? ==> GetTotalWorkerCount(game) == 0 && !HasAvailableWorkers(game)
  {
    var all := GetAllWorkers(game);
    assert forall w :: WorkerLifecycle.IsBusy(w) == !WorkerLifecycle.IsIdle(w);
    FilterPartition(all, WorkerLifecycle.IsIdle, WorkerLifecycle.IsBusy);
    FilterIsCount(all, WorkerLifecycle.IsIdle);
    SomeIdleIsAvailable(game);
  }

  lemma SomeIdleIsAvailable(game: Nullable<GameState.GameState>)
    ensures HasAvailableWorkers(game) <==> exists j :: 0 <= j < |GetAllWorkers(game)| && WorkerLifecycle.IsIdle(GetAllWorkers(game)[j])
  {
    var all := GetAllWorkers(game);
    if exists j :: 0 <= j < |all| && WorkerLifecycle.IsIdle(all[j]) {
      var j :| 0 <= j < |all| && WorkerLifecycle.IsIdle(all[j]);
      assert all[j] in GetIdleWorkers(game);
    }
    if HasAvailableWorkers(game) {
      var idle := GetIdleWorkers(game);
      assert idle[0] in all;
    }
  }

  /** The summary line of the worker panel. */
  function GetWorkerStatusSummary(game: Nullable<GameState.GameState>): string
  {
    "Workers: " + Text.IntToString(GetAvailableWorkerCount(game)) + " available, "
    + Text.IntToString(|GetBusyWorkers(game)|) + " busy (Total: " + Text.IntToString(GetTotalWorkerCount(game)) + ")"
  }

  /**
   * UpdateWorkerCounts: with game data, write the number of busy workers into
   * the player's counter; `changed` is whether the count-changed event fires.
   */
  method UpdateWorkerCounts(game: GameSaveData.GameSaveData?) returns (changed: bool)
    modifies if game == null then {} else {game.player}
    ensures game == null ==> !changed
    ensures game != null ==> game.State() == GameState.SyncBusyWorkers(old(game.State()))
    ensures game != null ==> (changed <==> !GameState.BusyCountSynced(old(game.State())))
  {
    changed := false;
    if game == null {
      return;
    }
    var busyCount := |game.GetBusyWorkers()|;
    if game.player.busyWorkersCount != busyCount {
      game.player.busyWorkersCount := busyCount;
      changed := true;
    }
  }
}
