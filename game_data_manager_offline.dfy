/**
 * GameDataManager's offline catch-up entry point. It sits in a module of its
 * own because the offline event system it creates already depends on
 * GameDataManager's yield bonus. The minutes are a 32-bit int and are turned
 * into seconds by a 32-bit multiplication before the result is widened.
 */
module GameDataManagerOffline {
  import opened Wrappers
  import opened Catalog
  import Int32
  import GameSaveData
  import WorkerTaskProcessingService
  import WorkerTaskAssignmentService
  import OfflineEventSystem
  import M = OfflineEventModel

  /** minutes * 60 as C# computes it on an int. */
  function OfflineSeconds(minutes: int): (r: int)
  {
    Int32.Mul(minutes, 60)
  }

  /**
   * Up to 35791394 minutes the seconds are exact and never negative for a
   * non-negative count; from 35791395 minutes on the product wraps, and at
   * that count it comes out negative, so nothing would be simulated.
   */
  lemma OfflineSecondsExactUpToWrap(minutes: int)
    ensures 0 <= minutes <= 35791394 ==> OfflineSeconds(minutes) == minutes * 60 >= 0
    ensures minutes == 35791395 ==> OfflineSeconds(minutes) < 0
  {
  }

  /**
   * SimulateOfflineTimeMinutes: nothing before initialisation; afterwards a
   * fresh offline event system replays minutes * 60 seconds on the loaded
   * save through the given services.
   */
  method SimulateOfflineTimeMinutes(isInitialized: bool, game: GameSaveData.GameSaveData?, minutes: int,
                                    managerIntervals: Nullable<M.Intervals>,
                                    taskAssignmentService: WorkerTaskAssignmentService.WorkerTaskAssignmentService,
                                    taskProcessingService: WorkerTaskProcessingService.WorkerTaskProcessingService,
                                    cat: Catalog, guid: nat -> string, now: int)
    requires M.Positive(M.OfflineIntervals(managerIntervals))
    modifies if game == null then {} else {game, game.player}
    ensures game != null ==> game.player == old(game.player)
    ensures !isInitialized && game != null ==> game.State() == old(game.State())
    ensures isInitialized && game != null ==>
              var env := old(M.Env(cat, taskProcessingService.entityService.plotService.Cache(),
                                   taskAssignmentService.planting.plotService.Cache(), guid, now));
              Some(game.State()) == M.SimulateOfflineTime(Some(old(game.State())), env, M.OfflineIntervals(managerIntervals),
                                                          OfflineSeconds(minutes)).0
  {
    if !isInitialized {
      return;
    }
    ghost var start := if game == null then Null else Some(game.State());
    ghost var env := M.Env(cat, taskProcessingService.entityService.plotService.Cache(),
                           taskAssignmentService.planting.plotService.Cache(), guid, now);
    var offlineSeconds := OfflineSeconds(minutes);
    var offlineEventSystem := new OfflineEventSystem.OfflineEventSystem(managerIntervals, taskAssignmentService, taskProcessingService);
    var _ := offlineEventSystem.SimulateOfflineTime(game, offlineSeconds, cat, guid, now, start, env);
  }
}
