/**
 * One worker tick over the save: every busy worker works for the update
 * interval, each task that finishes is processed right after its worker's
 * update, and the busy count is resynced once if any task finished.
 */
module WorkerUpdateModel {
  import opened Wrappers
  import opened Catalog
  import WorkerLifecycle
  import GameState
  import PlotCache
  import WorkerTaskProcessingModel

  type Worker = WorkerLifecycle.Worker

  /** What the tick does to one worker on its own: a busy worker works for dt, an idle one is skipped. */
  function Advance(w: Worker, dt: real, now: int): Worker
  {
    if WorkerLifecycle.IsBusy(w) then WorkerLifecycle.UpdateTask(w, dt, now).1 else w
  }

  /** The busy worker finishes its task during this update. */
  predicate Completes(w: Worker, dt: real, now: int)
  {
    WorkerLifecycle.IsBusy(w) && WorkerLifecycle.UpdateTask(w, dt, now).0.success
  }

  /** The foreach over the first i workers: the save after them, and whether any of them finished a task. */
  function UpdatePass(s: GameState.GameState, cache: PlotCache.PlotCache, cat: Catalog, dt: real, now: int, i: nat)
    : (r: (GameState.GameState, bool))
    requires i <= |s.workers|
    ensures |r.0.workers| == |s.workers| && r.0.guidsIssued == s.guidsIssued
    decreases i
  {
    if i == 0 then (s, false)
    else
      var prev := UpdatePass(s, cache, cat, dt, now, i - 1);
      var w := prev.0.workers[i - 1];
      if !WorkerLifecycle.IsBusy(w) then prev
      else
        var out := WorkerLifecycle.UpdateTask(w, dt, now);
        var updated := prev.0.(workers := prev.0.workers[i - 1 := out.1]);
        if WorkerLifecycle.IsIdle(out.1) then (WorkerTaskProcessingModel.ProcessCompletedWorkerTask(updated, cache, cat, out.0, now), true)
        else (updated, prev.1)
  }

  /** UpdateAllWorkers: nothing without game data; otherwise the pass, then the busy-count sync if a task finished. */
  function UpdateAllWorkers(game: Nullable<GameState.GameState>, cache: PlotCache.PlotCache, cat: Catalog, dt: real, now: int)
    : (r: Nullable<GameState.GameState>)
    ensures game.Null? <==> r.Null?
  {
    match game
    case Null => Null
    case Some(s) =>
      var pass := UpdatePass(s, cache, cat, dt, now, |s.workers|);
      Some(if pass.1 then GameState.SyncBusyWorkers(pass.0) else pass.0)
  }

  /**
   * After i workers, each of them has been advanced exactly once and the
   * others are untouched, and a task finished exactly when one of them
   * completed.
   */
  lemma {:induction false} UpdatePassAdvancesEachWorkerOnce(s: GameState.GameState, cache: PlotCache.PlotCache, cat: Catalog,
                                                            dt: real, now: int, i: nat)
    requires i <= |s.workers|
    ensures var r := UpdatePass(s, cache, cat, dt, now, i);
            (forall j :: 0 <= j < i ==> r.0.workers[j] == Advance(s.workers[j], dt, now))
            && (forall j :: i <= j < |s.workers| ==> r.0.workers[j] == s.workers[j])
            && (r.1 <==> exists j :: 0 <= j < i && Completes(s.workers[j], dt, now))
    decreases i
  {
    if i > 0 {
      UpdatePassAdvancesEachWorkerOnce(s, cache, cat, dt, now, i - 1);
      var prev := UpdatePass(s, cache, cat, dt, now, i - 1);
      assert prev.0.workers[i - 1] == s.workers[i - 1];
      var r := UpdatePass(s, cache, cat, dt, now, i);
      assert r.0.workers == prev.0.workers[i - 1 := Advance(s.workers[i - 1], dt, now)];
      assert r.1 <==> prev.1 || Completes(s.workers[i - 1], dt, now);
    }
  }

  /** Without a finished task the pass changes the workers only: no harvest runs and the counter is not touched. */
  lemma {:induction false} QuietPassChangesOnlyWorkers(s: GameState.GameState, cache: PlotCache.PlotCache, cat: Catalog,
                                                       dt: real, now: int, i: nat)
    requires i <= |s.workers|
    requires !UpdatePass(s, cache, cat, dt, now, i).1
    ensures UpdatePass(s, cache, cat, dt, now, i).0 == s.(workers := UpdatePass(s, cache, cat, dt, now, i).0.workers)
    decreases i
  {
    if i > 0 {
      QuietPassChangesOnlyWorkers(s, cache, cat, dt, now, i - 1);
    }
  }

  /**
   * The whole tick: every busy worker is advanced once and every idle one is
   * left alone; if some task finished the busy count ends in sync, and
   * otherwise only the workers changed.
   */
  lemma UpdateAllWorkersTick(s: GameState.GameState, cache: PlotCache.PlotCache, cat: Catalog, dt: real, now: int)
    ensures var r := UpdateAllWorkers(Some(s), cache, cat, dt, now).value;
            |r.workers| == |s.workers|
            && (forall j :: 0 <= j < |s.workers| ==> r.workers[j] == Advance(s.workers[j], dt, now))
            && ((exists j :: 0 <= j < |s.workers| && Completes(s.workers[j], dt, now)) ==> GameState.BusyCountSynced(r))
            && ((forall j :: 0 <= j < |s.workers| ==> !Completes(s.workers[j], dt, now)) ==> r == s.(workers := r.workers))
  {
    UpdatePassAdvancesEachWorkerOnce(s, cache, cat, dt, now, |s.workers|);
    if !UpdatePass(s, cache, cat, dt, now, |s.workers|).1 {
      QuietPassChangesOnlyWorkers(s, cache, cat, dt, now, |s.workers|);
    }
  }
}
