/**
 * The offline event replay on the save value: the three event kinds, the
 * replay of the ordered timeline, and the result it reports. The result is
 * a struct that the source hands to each event handler by value, so the
 * handlers' counter increments land on copies; SimulateOfflineTimeAsWritten
 * keeps that, SimulateOfflineTime threads the counters through the replay.
 */
module OfflineEventModel {
  import opened Wrappers
  import opened Catalog
  import Seqs
  import WorkerLifecycle
  import GameState
  import PlotCache
  import PlayerDataService
  import WorkerTaskProcessingModel
  import WorkerTaskAssignmentModel
  import WorkerUpdateModel
  import FarmEntityUpdate
  import opened OfflineTimeline
  import opened OfflineResult

  type Worker = WorkerLifecycle.Worker
  type WorkerTaskResult = WorkerLifecycle.WorkerTaskResult

  /** The update intervals, in whole seconds. */
  datatype Intervals = Intervals(worker: int, task: int, entity: int)

  predicate Positive(iv: Intervals)
  {
    iv.worker > 0 && iv.task > 0 && iv.entity > 0
  }

  /** The game update manager's intervals, or 1, 2 and 1 seconds without a manager. */
  function OfflineIntervals(manager: Nullable<Intervals>): (iv: Intervals)
    ensures manager.Null? ==> iv == Intervals(1, 2, 1)
    ensures manager.Some? ==> iv == manager.value
  {
    if manager.Some? then manager.value else Intervals(1, 2, 1)
  }

  /**
   * What the handlers read besides the save: the catalog, the plot cache of
   * the harvest path and that of the planting path, the id supply and the clock.
   */
  datatype Env = Env(cat: Catalog, processingCache: PlotCache.PlotCache, assignmentCache: PlotCache.PlotCache,
                     guid: nat -> string, now: int)

  /** The worker finishes a real task in this update: it is busy, its time runs out and its task is not None. */
  predicate Finishes(w: Worker, dt: real, now: int)
  {
    WorkerLifecycle.IsBusy(w)
    && var out := WorkerLifecycle.UpdateTask(w, dt, now).0;
       out.success && out.completedTask != WorkerLifecycle.WorkerTask.None
  }

  /** The completedTasks list of the first foreach: one result per finishing worker, in list order. */
  function Completions(workers: seq<Worker>, dt: real, now: int): seq<WorkerTaskResult>
  {
    if |workers| == 0 then []
    else
      var last := workers[|workers| - 1];
      Completions(workers[..|workers| - 1], dt, now) + (if Finishes(last, dt, now) then [WorkerLifecycle.UpdateTask(last, dt, now).0] else [])
  }

  /**
   * One collected result per finishing worker, in list order, each the result
   * of that worker's own update; so there are as many as there are finishers.
   */
  lemma {:induction false} CompletionsAreTheFinishers(workers: seq<Worker>, dt: real, now: int)
    ensures var r := Completions(workers, dt, now);
            var finishers := Seqs.Filter(workers, (w: Worker) => Finishes(w, dt, now));
            |r| == |finishers| == Seqs.Count(workers, (w: Worker) => Finishes(w, dt, now))
            && forall k :: 0 <= k < |r| ==> r[k] == WorkerLifecycle.UpdateTask(finishers[k], dt, now).0
  {
    var p := (w: Worker) => Finishes(w, dt, now);
    if |workers| > 0 {
      var init := workers[..|workers| - 1];
      var last := workers[|workers| - 1];
      assert workers == init + [last];
      Seqs.FilterAppend(init, [last], p);
      assert Seqs.Filter([last], p) == if p(last) then [last] else [];
      CompletionsAreTheFinishers(init, dt, now);
    }
  }

  /** What one more worker adds to the collected completions. */
  lemma CompletionsStep(workers: seq<Worker>, i: nat, dt: real, now: int)
    requires i < |workers|
    ensures Completions(workers[..i + 1], dt, now)
            == Completions(workers[..i], dt, now)
               + (if Finishes(workers[i], dt, now) then [WorkerLifecycle.UpdateTask(workers[i], dt, now).0] else [])
  {
    assert workers[..i + 1][..i] == workers[..i];
  }

  /** Every worker after the first foreach. */
  function AdvancedWorkers(workers: seq<Worker>, dt: real, now: int): (r: seq<Worker>)
    ensures |r| == |workers|
    ensures forall j :: 0 <= j < |r| ==> r[j] == WorkerUpdateModel.Advance(workers[j], dt, now)
  {
    seq(|workers|, j requires 0 <= j < |workers| => WorkerUpdateModel.Advance(workers[j], dt, now))
  }

  /** The second foreach's body: process the result if its worker is still in the list. */
  function ProcessIfFound(s: GameState.GameState, env: Env, result: WorkerTaskResult): (r: GameState.GameState)
    ensures r.workers == s.workers
  {
    if GameState.GetWorker(s, result.workerID).Some? then
      WorkerTaskProcessingModel.ProcessCompletedWorkerTask(s, env.processingCache, env.cat, result, env.now)
    else s
  }

  /** The second foreach over the collected results. */
  function ProcessResults(s: GameState.GameState, env: Env, results: seq<WorkerTaskResult>): (r: GameState.GameState)
    ensures r.workers == s.workers
  {
    if |results| == 0 then s
    else ProcessIfFound(ProcessResults(s, env, results[..|results| - 1]), env, results[|results| - 1])
  }

  /**
   * ProcessWorkerUpdateEvent: every busy worker works for the worker interval,
   * then each collected completion is processed, then the busy count is
   * resynced; the second component is the number of completions counted.
   */
  function WorkerEvent(s: GameState.GameState, env: Env, dt: real): (r: (GameState.GameState, nat))
  {
    var advanced := s.(workers := AdvancedWorkers(s.workers, dt, env.now));
    var results := Completions(s.workers, dt, env.now);
    (GameState.SyncBusyWorkers(ProcessResults(advanced, env, results)), |results|)
  }

  /**
   * A worker event advances each worker exactly once, before any completion
   * is processed (processing never touches the worker list), ends with the
   * busy count in sync, and counts exactly the workers that finish a real task.
   */
  lemma WorkerEventAdvancesThenProcesses(s: GameState.GameState, env: Env, dt: real)
    ensures var r := WorkerEvent(s, env, dt);
            |r.0.workers| == |s.workers|
            && (forall j :: 0 <= j < |s.workers| ==> r.0.workers[j] == WorkerUpdateModel.Advance(s.workers[j], dt, env.now))
            && GameState.BusyCountSynced(r.0)
            && r.1 == Seqs.Count(s.workers, (w: Worker) => Finishes(w, dt, env.now))
  {
    CompletionsAreTheFinishers(s.workers, dt, env.now);
  }

  /** Without a finishing worker the event only advances the workers and resyncs the busy count. */
  lemma {:induction false} QuietWorkerEvent(s: GameState.GameState, env: Env, dt: real)
    requires forall j :: 0 <= j < |s.workers| ==> !Finishes(s.workers[j], dt, env.now)
    ensures WorkerEvent(s, env, dt).0 == GameState.SyncBusyWorkers(s.(workers := AdvancedWorkers(s.workers, dt, env.now)))
    ensures WorkerEvent(s, env, dt).1 == 0
  {
    NoCompletions(s.workers, dt, env.now);
  }

  lemma {:induction false} NoCompletions(workers: seq<Worker>, dt: real, now: int)
    requires forall j :: 0 <= j < |workers| ==> !Finishes(workers[j], dt, now)
    ensures Completions(workers, dt, now) == []
  {
    if |workers| > 0 {
      NoCompletions(workers[..|workers| - 1], dt, now);
    }
  }

  /**
   * ProcessTaskAssignmentEvent: one assignment round; the second component
   * is idle-before minus idle-after when that is positive, else 0.
   */
  function TaskEvent(s: GameState.GameState, env: Env): (r: (GameState.GameState, nat))
  {
    var after := WorkerTaskAssignmentModel.AssignWorkerTasks(Some(s), env.assignmentCache, env.cat, env.guid, env.now).value;
    var newAssignments: int := IdleCount(s.workers) - IdleCount(after.workers);
    (after, if newAssignments > 0 then newAssignments else 0)
  }

  /** The idle workers of a list, counted one by one (GetAvailableWorkers on a present save). */
  function IdleCount(workers: seq<Worker>): nat
  {
    if |workers| == 0 then 0
    else IdleCount(workers[..|workers| - 1]) + (if WorkerLifecycle.IsIdle(workers[|workers| - 1]) then 1 else 0)
  }

  /** IdleCount is the game's own count of available workers. */
  lemma {:induction false} IdleCountIsAvailableWorkers(s: GameState.GameState)
    ensures IdleCount(s.workers) == PlayerDataService.GetAvailableWorkers(Some(s))
  {
    IdleCountIsCount(s.workers);
  }

  lemma {:induction false} IdleCountIsCount(workers: seq<Worker>)
    ensures IdleCount(workers) == Seqs.Count(workers, WorkerLifecycle.IsIdle)
  {
    if |workers| > 0 {
      var init := workers[..|workers| - 1];
      assert workers == init + [workers[|workers| - 1]];
      Seqs.CountAppend(init, [workers[|workers| - 1]], WorkerLifecycle.IsIdle);
      IdleCountIsCount(init);
    }
  }

  /** The round adds the drop in idle workers to tasksAssigned, and without an idle worker it changes and counts nothing. */
  lemma TaskEventCountsIdleDrop(s: GameState.GameState, env: Env)
    ensures var r := TaskEvent(s, env);
            var drop := |GameState.GetIdleWorkers(s)| - |GameState.GetIdleWorkers(r.0)|;
            r.1 == (if drop > 0 then drop else 0)
            && r.1 <= |GameState.GetIdleWorkers(s)|
    ensures |WorkerTaskAssignmentModel.IdleIndices(s)| == 0 ==> TaskEvent(s, env) == (s, 0)
  {
    IdleCountIsAvailableWorkers(s);
    IdleCountIsAvailableWorkers(TaskEvent(s, env).0);
  }

  /** ProcessEntityUpdateEvent: the entity pass with the entity interval as dt. */
  function EntityEvent(s: GameState.GameState, cat: Catalog, dt: real, now: int): (r: GameState.GameState)
  {
    FarmEntityUpdate.EntityPass(s, cat, dt, now)
  }

  /**
   * The offline entity event is the live farm-entity pass at speed 1: the
   * same ticks and the same removals, only the save request is not used.
   */
  lemma EntityEventIsLivePass(s: GameState.GameState, cat: Catalog, entityInterval: real, now: int)
    ensures FarmEntityUpdate.UpdateAllFarmEntities(true, Some(s), cat, entityInterval, 1.0, now).0
            == Some(EntityEvent(s, cat, entityInterval, now))
  {
    assert FarmEntityUpdate.StepLength(entityInterval, 1.0) == entityInterval;
  }

  /** ProcessOfflineEvent with the counters carried from event to event. */
  function ProcessOfflineEvent(s: GameState.GameState, env: Env, iv: Intervals, e: OfflineEvent, tally: Tally)
    : (r: (GameState.GameState, Tally))
    ensures r.1.tasksCompleted >= tally.tasksCompleted && r.1.tasksAssigned >= tally.tasksAssigned
    ensures e.eventType == EntityUpdate ==> r.1 == tally
  {
    match e.eventType
    case WorkerUpdate =>
      var w := WorkerEvent(s, env, iv.worker as real);
      (w.0, tally.(tasksCompleted := tally.tasksCompleted + w.1))
    case TaskAssignment =>
      var t := TaskEvent(s, env);
      (t.0, tally.(tasksAssigned := tally.tasksAssigned + t.1))
    case EntityUpdate =>
      (EntityEvent(s, env.cat, iv.entity as real, env.now), tally)
  }

  /** The replay loop over a list of events, one after another. */
  function Replay(s: GameState.GameState, env: Env, iv: Intervals, events: seq<OfflineEvent>, tally: Tally)
    : (r: (GameState.GameState, Tally))
    ensures r.1.tasksCompleted >= tally.tasksCompleted && r.1.tasksAssigned >= tally.tasksAssigned
  {
    if |events| == 0 then (s, tally)
    else
      var prev := Replay(s, env, iv, events[..|events| - 1], tally);
      ProcessOfflineEvent(prev.0, env, iv, events[|events| - 1], prev.1)
  }

  /** Replaying one more event of a list is handling it after the replay of the events before it. */
  lemma ReplayStep(s: GameState.GameState, env: Env, iv: Intervals, events: seq<OfflineEvent>, k: nat, tally: Tally)
    requires k < |events|
    ensures var prev := Replay(s, env, iv, events[..k], tally);
            Replay(s, env, iv, events[..k + 1], tally) == ProcessOfflineEvent(prev.0, env, iv, events[k], prev.1)
  {
    assert events[..k + 1][..k] == events[..k];
  }

  /** The three cases of ProcessOfflineEvent, one per event type. */
  lemma ProcessOfflineEventCases(s: GameState.GameState, env: Env, iv: Intervals, e: OfflineEvent, tally: Tally)
    ensures e.eventType == WorkerUpdate ==>
              var r := ProcessOfflineEvent(s, env, iv, e, tally);
              var w := WorkerEvent(s, env, iv.worker as real);
              r.0 == w.0 && r.1 == tally.(tasksCompleted := tally.tasksCompleted + w.1)
    ensures e.eventType == TaskAssignment ==>
              var r := ProcessOfflineEvent(s, env, iv, e, tally);
              var t := TaskEvent(s, env);
              r.0 == t.0 && r.1 == tally.(tasksAssigned := tally.tasksAssigned + t.1)
    ensures e.eventType == EntityUpdate ==>
              var r := ProcessOfflineEvent(s, env, iv, e, tally);
              r.0 == EntityEvent(s, env.cat, iv.entity as real, env.now) && r.1 == tally
  {
  }

  /** Replaying two lists one after the other is replaying their concatenation. */
  lemma {:induction false} ReplayAppend(s: GameState.GameState, env: Env, iv: Intervals,
                                        a: seq<OfflineEvent>, b: seq<OfflineEvent>, tally: Tally)
    ensures var mid := Replay(s, env, iv, a, tally);
            Replay(s, env, iv, a + b, tally) == Replay(mid.0, env, iv, b, mid.1)
  {
    if |b| > 0 {
      var init := b[..|b| - 1];
      ReplayAppend(s, env, iv, a, init, tally);
      assert (a + b)[..|a + b| - 1] == a + init;
      assert (a + b)[|a + b| - 1] == b[|b| - 1];
    } else {
      assert a + b == a;
    }
  }

  /** The events the replay runs over: the timeline in timestamp order. */
  function OrderedTimeline(offlineSeconds: int, iv: Intervals): seq<OfflineEvent>
    requires Positive(iv)
  {
    OrderByTimestamp(Timeline(offlineSeconds, iv.worker, iv.task, iv.entity))
  }

  /**
   * SimulateOfflineTime as the source computes it: the save is replayed,
   * but the result is built before the replay and the handlers add to
   * copies of it, so it reports zero tasks.
   */
  function SimulateOfflineTimeAsWritten(game: Nullable<GameState.GameState>, env: Env, iv: Intervals, offlineSeconds: int)
    : (r: (Nullable<GameState.GameState>, OfflineSimulationResult))
    requires Positive(iv)
  {
    if offlineSeconds <= 0 then (game, DefaultResult())
    else
      var result := DefaultResult().(totalOfflineTime := offlineSeconds, eventsProcessed := Some([]));
      match game
      case Null => (Null, result)
      case Some(s) => (Some(Replay(s, env, iv, OrderedTimeline(offlineSeconds, iv), Tally(0, 0)).0), result)
  }

  /**
   * SimulateOfflineTime with the counters the handlers add up: the same save
   * afterwards, and the result reports the completed and the assigned tasks.
   */
  function SimulateOfflineTime(game: Nullable<GameState.GameState>, env: Env, iv: Intervals, offlineSeconds: int)
    : (r: (Nullable<GameState.GameState>, OfflineSimulationResult))
    requires Positive(iv)
    ensures offlineSeconds <= 0 ==> r == (game, DefaultResult())
    ensures game.Null? <==> r.0.Null?
    ensures offlineSeconds > 0 ==> r.1.totalOfflineTime == offlineSeconds && r.1.eventsProcessed == Some([])
    ensures r.1.tasksCompleted >= 0 && r.1.tasksAssigned >= 0
  {
    if offlineSeconds <= 0 then (game, DefaultResult())
    else
      var result := DefaultResult().(totalOfflineTime := offlineSeconds, eventsProcessed := Some([]));
      match game
      case Null => (Null, result)
      case Some(s) =>
        var replay := Replay(s, env, iv, OrderedTimeline(offlineSeconds, iv), Tally(0, 0));
        (Some(replay.0), result.(tasksCompleted := replay.1.tasksCompleted, tasksAssigned := replay.1.tasksAssigned))
  }

  /**
   * The struct copies lose every count: whatever the save and the offline
   * time, the as-written result reports zero completed and zero assigned
   * tasks, while its save is the corrected one's and the rest of the two
   * results agree.
   */
  lemma AsWrittenReportsNoTasks(game: Nullable<GameState.GameState>, env: Env, iv: Intervals, offlineSeconds: int)
    requires Positive(iv)
    ensures var asWritten := SimulateOfflineTimeAsWritten(game, env, iv, offlineSeconds);
            var corrected := SimulateOfflineTime(game, env, iv, offlineSeconds);
            asWritten.1.tasksCompleted == 0 && asWritten.1.tasksAssigned == 0
            && asWritten.0 == corrected.0
            && asWritten.1 == corrected.1.(tasksCompleted := 0, tasksAssigned := 0)
  {
  }

  /**
   * The input that shows it: one busy worker whose task ends within the
   * first second, one second offline, assignments and entity updates every
   * two seconds. One task is completed, the corrected result says 1 and the
   * as-written one says 0.
   */
  lemma OneCompletionIsLost(s: GameState.GameState, env: Env)
    requires |s.workers| == 1 && WorkerLifecycle.IsBusy(s.workers[0])
    requires s.workers[0].assignedTask == WorkerLifecycle.WorkerTask.Plant && s.workers[0].timeRemainingOnTask <= 1.0
    ensures SimulateOfflineTime(Some(s), env, Intervals(1, 2, 2), 1).1.tasksCompleted == 1
    ensures SimulateOfflineTimeAsWritten(Some(s), env, Intervals(1, 2, 2), 1).1.tasksCompleted == 0
  {
    var iv := Intervals(1, 2, 2);
    var w := MultiplesFrom(1, 1, 1);
    assert w == [1] by {
      assert MultiplesFrom(2, 1, 1) == [];
    }
    assert MultiplesFrom(2, 2, 1) == [];
    var e := OfflineEvent(1, WorkerUpdate);
    assert Timeline(1, 1, 2, 2) == [e];
    assert OrderByTimestamp([e]) == Insert(e, OrderByTimestamp([]));
    assert OrderedTimeline(1, iv) == [e];
    assert Finishes(s.workers[0], 1.0, env.now);
    assert Completions(s.workers, 1.0, env.now) == [WorkerLifecycle.UpdateTask(s.workers[0], 1.0, env.now).0] by {
      assert s.workers[..0] == [];
    }
    assert Replay(s, env, iv, [e], Tally(0, 0)).1 == Tally(1, 0) by {
      assert [e][..0] == [];
    }
  }
}
