/**
 * The player-facing service over the loaded save. Its queries answer 0 or
 * false when no game data is loaded, and its worker counter operations
 * consult the worker list, not the player's counters.
 */
module PlayerDataService {
  import opened Wrappers
  import opened GameEnums
  import Seqs
  import GameSettings
  import PlayerState
  import PlayerData
  import WorkerLifecycle
  import GameState
  import GameSaveData

  /** GetAvailableWorkers: the number of idle workers in the list; 0 without game data. */
  function GetAvailableWorkers(game: Nullable<GameState.GameState>): (n: nat)
    ensures game.Null? ==> n == 0
    ensures game.Some? ==> n == |GameState.GetIdleWorkers(game.value)|
    ensures game.Some? ==> n == Seqs.Count(game.value.workers, WorkerLifecycle.IsIdle)
  {
    if game.Null? then 0 else |GameState.GetIdleWorkers(game.value)|
  }

  predicate HasAvailableWorkers(game: Nullable<GameState.GameState>)
  {
    GetAvailableWorkers(game) > 0
  }

  /** GetItemCount: the held amount, 0 for an absent item or without game data. */
  function GetItemCount(game: Nullable<GameState.GameState>, itemID: ItemID): (n: int)
    ensures game.Null? || itemID !in game.value.player.inventory ==> n == 0
    ensures game.Some? && itemID in game.value.player.inventory ==> n == game.value.player.inventory[itemID]
  {
    if game.Some? && itemID in game.value.player.inventory then game.value.player.inventory[itemID] else 0
  }

  /**
   * The two notions of available workers agree on a valid save whose busy
   * counter is in sync: hired minus busy is the number of idle workers.
   */
  lemma AvailableWorkersAgreeWhenSynced(s: GameState.GameState)
    requires GameState.IsValidSave(s) && GameState.BusyCountSynced(s)
    ensures GetAvailableWorkers(Some(s)) == PlayerState.GetAvailableWorkers(s.player)
  {
    GameState.IdleAndBusyPartitionWorkers(s);
  }

  /** Out of sync they differ: one idle worker counted busy is available here and not for the player. */
  lemma AvailableWorkersCanDiffer(settings: Nullable<GameSettings.GameSettings>, now: int)
    ensures var base := GameState.EmptySave(settings, now, 0);
            var s := base.(workers := [WorkerLifecycle.NewWorker("worker_0", now)],
                           player := base.player.(totalWorkersHired := 1, busyWorkersCount := 1));
            GetAvailableWorkers(Some(s)) == 1 && PlayerState.GetAvailableWorkers(s.player) == 0
  {
    var base := GameState.EmptySave(settings, now, 0);
    var w := WorkerLifecycle.NewWorker("worker_0", now);
    assert Seqs.Filter([w], WorkerLifecycle.IsIdle) == [w];
  }

  /** AssignWorker: one more busy worker on the counter, only while an idle worker exists in the list. */
  method AssignWorker(game: GameSaveData.GameSaveData?)
    modifies if game == null then {} else {game.player}
    ensures game != null && old(GameState.GetIdleWorkers(game.State())) != [] ==>
              game.player.Value() == old(game.player.Value()).(busyWorkersCount := old(game.player.busyWorkersCount) + 1)
    ensures game != null && old(GameState.GetIdleWorkers(game.State())) == [] ==>
              game.player.Value() == old(game.player.Value())
  {
    if game != null && |GameState.GetIdleWorkers(game.State())| > 0 {
      game.player.busyWorkersCount := game.player.busyWorkersCount + 1;
    }
  }

  /** FreeWorker: one fewer busy worker on the counter, never below zero. */
  method FreeWorker(game: GameSaveData.GameSaveData?)
    modifies if game == null then {} else {game.player}
    ensures game != null ==> game.player.Value() == PlayerState.FreeWorker(old(game.player.Value()))
  {
    if game != null && game.player.busyWorkersCount > 0 {
      game.player.busyWorkersCount := game.player.busyWorkersCount - 1;
    }
  }

  /** UpdatePlayTime: the frame time is added to the total play time. */
  method UpdatePlayTime(game: GameSaveData.GameSaveData?, deltaTime: real)
    modifies game
    ensures game != null ==> game.State() == old(game.State()).(totalPlayTimeSeconds := old(game.totalPlayTimeSeconds) + deltaTime)
  {
    if game != null {
      game.totalPlayTimeSeconds := game.totalPlayTimeSeconds + deltaTime;
    }
  }

  /** SpendGold: false without game data, otherwise the player's own SpendGold. */
  method SpendGold(game: GameSaveData.GameSaveData?, amount: int) returns (ok: bool)
    modifies if game == null then {} else {game.player}
    ensures game == null ==> !ok
    ensures game != null ==> (ok, game.player.Value()) == PlayerState.SpendGold(old(game.player.Value()), amount)
  {
    ok := false;
    if game != null {
      ok := game.player.SpendGold(amount);
    }
  }
}
