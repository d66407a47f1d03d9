/**
 * The chunked offline worker simulation on the save value. A while loop
 * walks the offline time from event to event: at each multiple of the
 * worker interval every busy worker works and each finished task is
 * processed at once and logged; at each multiple of the assignment interval
 * one assignment round runs and the drop in idle workers is logged.
 *
 * Two places where the source does not do what it evidently means are kept
 * apart: the counters land on copies of the result struct
 * (SimulateWorkerActivitiesAsWritten), and the worker update is handed the
 * time since the previous event of either kind rather than since the
 * previous worker update (Chunk.deltaTime). SimulateWorkerActivities is the
 * corrected simulation.
 */
module WorkerOfflineSimulationModel {
  import opened Wrappers
  import opened Catalog
  import Seqs
  import WorkerLifecycle
  import GameState
  import WorkerService
  import WorkerTaskProcessingModel
  import WorkerUpdateModel
  import OfflineTimeline
  import opened OfflineResult
  import E = OfflineEventModel

  type Worker = WorkerLifecycle.Worker

  function Min(a: int, b: int): int
  {
    if a <= b then a else b
  }

  /**
   * One pass of the while loop: the time it moves to, the time since the
   * previous event of either kind, and which of the two processes are due.
   */
  datatype Chunk = Chunk(time: int, deltaTime: int, workerUpdate: bool, taskAssignment: bool)

  /** The next event time is the earlier due time, but not past the offline time. */
  function NextChunk(offlineSeconds: int, currentTime: int, nextWorkerUpdate: int, nextTaskAssignment: int): (c: Chunk)
  {
    var nextEventTime := Min(Min(nextWorkerUpdate, nextTaskAssignment), offlineSeconds);
    Chunk(nextEventTime, nextEventTime - currentTime, nextEventTime >= nextWorkerUpdate, nextEventTime >= nextTaskAssignment)
  }

  /** The passes of the while loop from currentTime on, with the two next due times. */
  function Chunks(offlineSeconds: int, workerInterval: int, taskInterval: int,
                  currentTime: int, nextWorkerUpdate: int, nextTaskAssignment: int): (r: seq<Chunk>)
    requires workerInterval > 0 && taskInterval > 0
    requires currentTime < nextWorkerUpdate && currentTime < nextTaskAssignment
    decreases offlineSeconds - currentTime
  {
    if currentTime >= offlineSeconds then []
    else
      var c := NextChunk(offlineSeconds, currentTime, nextWorkerUpdate, nextTaskAssignment);
      [c] + Chunks(offlineSeconds, workerInterval, taskInterval, c.time,
                   if c.workerUpdate then nextWorkerUpdate + workerInterval else nextWorkerUpdate,
                   if c.taskAssignment then nextTaskAssignment + taskInterval else nextTaskAssignment)
  }

  /** The whole loop: it starts at 0 with both processes due one interval later. */
  function Schedule(offlineSeconds: int, workerInterval: int, taskInterval: int): seq<Chunk>
    requires workerInterval > 0 && taskInterval > 0
  {
    Chunks(offlineSeconds, workerInterval, taskInterval, 0, workerInterval, taskInterval)
  }

  /**
   * As written nothing rejects a zero assignment interval. From the start of
   * the loop the next event time is then 0, only the assignment is due, and
   * its next due time is 0 again: the pass leaves the loop's time and both
   * due times as it found them, so with any positive offline time the loop
   * repeats that pass for ever.
   */
  lemma ZeroAssignmentIntervalStallsLoop(offlineSeconds: int, workerInterval: int, taskInterval: int)
    requires offlineSeconds > 0 && workerInterval > 0 && taskInterval == 0
    ensures var c := NextChunk(offlineSeconds, 0, workerInterval, taskInterval);
            var nextWorkerUpdate := if c.workerUpdate then workerInterval + workerInterval else workerInterval;
            var nextTaskAssignment := if c.taskAssignment then taskInterval + taskInterval else taskInterval;
            c == Chunk(0, 0, false, true)
            && nextWorkerUpdate == workerInterval && nextTaskAssignment == 0
            && c.time < offlineSeconds
  {
  }

  /**
   * The loop makes progress and stays in range: every pass moves forward by
   * a positive step from the previous pass's time, no pass goes past the
   * offline time, and the last pass ends exactly on it.
   */
  lemma ChunksMoveForward(offlineSeconds: int, workerInterval: int, taskInterval: int,
                          currentTime: int, nextWorkerUpdate: int, nextTaskAssignment: int)
    requires workerInterval > 0 && taskInterval > 0
    requires currentTime < nextWorkerUpdate && currentTime < nextTaskAssignment
    ensures var r := Chunks(offlineSeconds, workerInterval, taskInterval, currentTime, nextWorkerUpdate, nextTaskAssignment);
            (forall k :: 0 <= k < |r| ==> r[k].deltaTime > 0 && currentTime < r[k].time <= offlineSeconds)
            && (forall k :: 0 <= k < |r| ==> r[k].time == (if k == 0 then currentTime else r[k - 1].time) + r[k].deltaTime)
            && (|r| > 0 ==> r[|r| - 1].time == offlineSeconds)
            && (|r| == 0 <==> currentTime >= offlineSeconds)
  {
    ChunksInRange(offlineSeconds, workerInterval, taskInterval, currentTime, nextWorkerUpdate, nextTaskAssignment);
    ChunksChain(offlineSeconds, workerInterval, taskInterval, currentTime, nextWorkerUpdate, nextTaskAssignment);
  }

  /** The next pass of the loop from currentTime and the two due times after it. */
  lemma ChunksUnfold(offlineSeconds: int, workerInterval: int, taskInterval: int,
                     currentTime: int, nextWorkerUpdate: int, nextTaskAssignment: int)
    requires workerInterval > 0 && taskInterval > 0
    requires currentTime < nextWorkerUpdate && currentTime < nextTaskAssignment
    requires currentTime < offlineSeconds
    ensures var c := NextChunk(offlineSeconds, currentTime, nextWorkerUpdate, nextTaskAssignment);
            var nw := if c.workerUpdate then nextWorkerUpdate + workerInterval else nextWorkerUpdate;
            var nt := if c.taskAssignment then nextTaskAssignment + taskInterval else nextTaskAssignment;
            currentTime < c.time <= offlineSeconds && c.deltaTime == c.time - currentTime
            && c.time < nw && c.time < nt
            && Chunks(offlineSeconds, workerInterval, taskInterval, currentTime, nextWorkerUpdate, nextTaskAssignment)
               == [c] + Chunks(offlineSeconds, workerInterval, taskInterval, c.time, nw, nt)
  {
  }

  /** Every pass moves forward by a positive step, stays after currentTime and not past the offline time; the last ends on it. */
  lemma {:induction false} ChunksInRange(offlineSeconds: int, workerInterval: int, taskInterval: int,
                                         currentTime: int, nextWorkerUpdate: int, nextTaskAssignment: int)
    requires workerInterval > 0 && taskInterval > 0
    requires currentTime < nextWorkerUpdate && currentTime < nextTaskAssignment
    ensures var r := Chunks(offlineSeconds, workerInterval, taskInterval, currentTime, nextWorkerUpdate, nextTaskAssignment);
            (forall k :: 0 <= k < |r| ==> r[k].deltaTime > 0 && currentTime < r[k].time <= offlineSeconds)
            && (|r| > 0 ==> r[|r| - 1].time == offlineSeconds)
            && (|r| == 0 <==> currentTime >= offlineSeconds)
    decreases offlineSeconds - currentTime
  {
    if currentTime < offlineSeconds {
      ChunksUnfold(offlineSeconds, workerInterval, taskInterval, currentTime, nextWorkerUpdate, nextTaskAssignment);
      var c := NextChunk(offlineSeconds, currentTime, nextWorkerUpdate, nextTaskAssignment);
      var nw := if c.workerUpdate then nextWorkerUpdate + workerInterval else nextWorkerUpdate;
      var nt := if c.taskAssignment then nextTaskAssignment + taskInterval else nextTaskAssignment;
      ChunksInRange(offlineSeconds, workerInterval, taskInterval, c.time, nw, nt);
    }
  }

  /** Each pass's time is the previous pass's time (or currentTime) plus its deltaTime. */
  lemma {:induction false} ChunksChain(offlineSeconds: int, workerInterval: int, taskInterval: int,
                                       currentTime: int, nextWorkerUpdate: int, nextTaskAssignment: int)
    requires workerInterval > 0 && taskInterval > 0
    requires currentTime < nextWorkerUpdate && currentTime < nextTaskAssignment
    ensures var r := Chunks(offlineSeconds, workerInterval, taskInterval, currentTime, nextWorkerUpdate, nextTaskAssignment);
            forall k :: 0 <= k < |r| ==> r[k].time == (if k == 0 then currentTime else r[k - 1].time) + r[k].deltaTime
    decreases offlineSeconds - currentTime
  {
    if currentTime < offlineSeconds {
      ChunksUnfold(offlineSeconds, workerInterval, taskInterval, currentTime, nextWorkerUpdate, nextTaskAssignment);
      var c := NextChunk(offlineSeconds, currentTime, nextWorkerUpdate, nextTaskAssignment);
      var nw := if c.workerUpdate then nextWorkerUpdate + workerInterval else nextWorkerUpdate;
      var nt := if c.taskAssignment then nextTaskAssignment + taskInterval else nextTaskAssignment;
      ChunksChain(offlineSeconds, workerInterval, taskInterval, c.time, nw, nt);
      var rest := Chunks(offlineSeconds, workerInterval, taskInterval, c.time, nw, nt);
      var r := [c] + rest;
      forall k | 1 <= k < |r|
        ensures r[k].time == r[k - 1].time + r[k].deltaTime
      {
        assert r[k] == rest[k - 1];
        assert r[k - 1] == if k == 1 then c else rest[k - 2];
      }
    }
  }

  /** The times of the passes that run the worker update, in order. */
  function WorkerTimes(cs: seq<Chunk>): seq<int>
  {
    if |cs| == 0 then [] else (if cs[0].workerUpdate then [cs[0].time] else []) + WorkerTimes(cs[1..])
  }

  /** The times of the passes that run an assignment round, in order. */
  function TaskTimes(cs: seq<Chunk>): seq<int>
  {
    if |cs| == 0 then [] else (if cs[0].taskAssignment then [cs[0].time] else []) + TaskTimes(cs[1..])
  }

  /**
   * Worker updates run at exactly the due time and its successive multiples
   * up to the offline time, and so do assignment rounds.
   */
  lemma {:induction false} ChunksRunAtMultiples(offlineSeconds: int, workerInterval: int, taskInterval: int,
                                                currentTime: int, nextWorkerUpdate: int, nextTaskAssignment: int)
    requires workerInterval > 0 && taskInterval > 0
    requires currentTime < nextWorkerUpdate && currentTime < nextTaskAssignment
    ensures var r := Chunks(offlineSeconds, workerInterval, taskInterval, currentTime, nextWorkerUpdate, nextTaskAssignment);
            WorkerTimes(r) == OfflineTimeline.MultiplesFrom(nextWorkerUpdate, workerInterval, offlineSeconds)
            && TaskTimes(r) == OfflineTimeline.MultiplesFrom(nextTaskAssignment, taskInterval, offlineSeconds)
    decreases offlineSeconds - currentTime
  {
    var r := Chunks(offlineSeconds, workerInterval, taskInterval, currentTime, nextWorkerUpdate, nextTaskAssignment);
    if currentTime < offlineSeconds {
      var c := NextChunk(offlineSeconds, currentTime, nextWorkerUpdate, nextTaskAssignment);
      var nw := if c.workerUpdate then nextWorkerUpdate + workerInterval else nextWorkerUpdate;
      var nt := if c.taskAssignment then nextTaskAssignment + taskInterval else nextTaskAssignment;
      ChunksRunAtMultiples(offlineSeconds, workerInterval, taskInterval, c.time, nw, nt);
      assert r[1..] == Chunks(offlineSeconds, workerInterval, taskInterval, c.time, nw, nt);
      assert r[0] == c;
    }
  }

  /**
   * The schedule from the start: worker updates at the multiples of the
   * worker interval, assignment rounds at the multiples of the assignment
   * interval, each up to the offline time. A time due for both runs the
   * worker update first, since one pass does both in that order.
   */
  lemma ScheduleRunsAtMultiples(offlineSeconds: int, workerInterval: int, taskInterval: int)
    requires workerInterval > 0 && taskInterval > 0
    ensures var r := Schedule(offlineSeconds, workerInterval, taskInterval);
            WorkerTimes(r) == OfflineTimeline.MultiplesFrom(workerInterval, workerInterval, offlineSeconds)
            && TaskTimes(r) == OfflineTimeline.MultiplesFrom(taskInterval, taskInterval, offlineSeconds)
  {
    ChunksRunAtMultiples(offlineSeconds, workerInterval, taskInterval, 0, workerInterval, taskInterval);
  }

  /** The worker time the source hands out: the sum of the worker passes' deltaTime. */
  function WorkerTimeAsWritten(cs: seq<Chunk>): int
  {
    if |cs| == 0 then 0 else (if cs[0].workerUpdate then cs[0].deltaTime else 0) + WorkerTimeAsWritten(cs[1..])
  }

  /**
   * As written, a worker update is given the time since the previous event
   * of either kind. With worker updates every 2 seconds and assignments
   * every 3, over 4 seconds the update at 4 is given 1 second although the
   * previous one ran at 2, so the workers work 3 seconds in all instead of 4.
   */
  lemma WorkerTimeIsLostAsWritten()
    ensures Schedule(4, 2, 3) == [Chunk(2, 2, true, false), Chunk(3, 1, false, true), Chunk(4, 1, true, false)]
    ensures WorkerTimes(Schedule(4, 2, 3)) == [2, 4]
    ensures WorkerTimeAsWritten(Schedule(4, 2, 3)) == 3
  {
    assert Chunks(4, 2, 3, 4, 6, 6) == [];
    assert Chunks(4, 2, 3, 3, 4, 6) == [Chunk(4, 1, true, false)];
    assert Chunks(4, 2, 3, 2, 4, 3) == [Chunk(3, 1, false, true), Chunk(4, 1, true, false)];
  }

  /**
   * Corrected, each worker update is given the worker interval. The j-th
   * worker update runs at (j + 1)·interval, so that is exactly the time since
   * the previous worker update (or since the start), and the workers work
   * for as long as the last worker update is from the start.
   */
  lemma CorrectedWorkerTimeIsElapsed(offlineSeconds: int, workerInterval: int, taskInterval: int)
    requires workerInterval > 0 && taskInterval > 0
    ensures var ts := WorkerTimes(Schedule(offlineSeconds, workerInterval, taskInterval));
            (forall j :: 0 <= j < |ts| ==> ts[j] - (if j == 0 then 0 else ts[j - 1]) == workerInterval)
            && (|ts| > 0 ==> |ts| * workerInterval == ts[|ts| - 1])
            && (|ts| + 1) * workerInterval > offlineSeconds
  {
    ScheduleRunsAtMultiples(offlineSeconds, workerInterval, taskInterval);
    OfflineTimeline.MultiplesFromShape(workerInterval, workerInterval, offlineSeconds);
    var ts := WorkerTimes(Schedule(offlineSeconds, workerInterval, taskInterval));
    forall j | 0 <= j < |ts|
      ensures ts[j] == (j + 1) * workerInterval
    {
      assert ts[j] == workerInterval + j * workerInterval;
    }
    forall j | 1 <= j < |ts|
      ensures ts[j] - ts[j - 1] == workerInterval
    {
      assert ts[j] - ts[j - 1] == (j + 1) * workerInterval - j * workerInterval;
    }
  }

  /** The logged event of a finished task. */
  function CompletedEvent(result: WorkerLifecycle.WorkerTaskResult, time: int): OfflineWorkerEvent
  {
    TaskCompleted(time, result.workerID, result.completedTask, result.targetInstanceID)
  }

  /** The events of a list of finished tasks, one each, in order. */
  function Logged(results: seq<WorkerLifecycle.WorkerTaskResult>, time: int): (r: seq<OfflineWorkerEvent>)
    ensures |r| == |results|
  {
    seq(|results|, k requires 0 <= k < |results| => CompletedEvent(results[k], time))
  }

  /**
   * The foreach body for worker i: a busy worker works for dt; if it
   * finishes a real task, that task is processed at once and logged.
   */
  function WorkerStep(s: GameState.GameState, env: E.Env, dt: real, time: int, i: nat)
    : (r: (GameState.GameState, seq<OfflineWorkerEvent>))
    requires i < |s.workers|
    ensures r.0.workers == s.workers[i := WorkerUpdateModel.Advance(s.workers[i], dt, env.now)]
    ensures r.1 == if E.Finishes(s.workers[i], dt, env.now)
                   then [CompletedEvent(WorkerLifecycle.UpdateTask(s.workers[i], dt, env.now).0, time)] else []
  {
    var w := s.workers[i];
    if !WorkerLifecycle.IsBusy(w) then (s, [])
    else
      var out := WorkerLifecycle.UpdateTask(w, dt, env.now);
      var updated := s.(workers := s.workers[i := out.1]);
      if out.0.success && out.0.completedTask != WorkerLifecycle.WorkerTask.None then
        (WorkerTaskProcessingModel.ProcessCompletedWorkerTask(updated, env.processingCache, env.cat, out.0, env.now),
         [TaskCompleted(time, w.workerID, out.0.completedTask, out.0.targetInstanceID)])
      else (updated, [])
  }

  /** The foreach over the first i workers: the save after them and the events they logged. */
  function WorkerPass(s: GameState.GameState, env: E.Env, dt: real, time: int, i: nat)
    : (r: (GameState.GameState, seq<OfflineWorkerEvent>))
    requires i <= |s.workers|
    ensures |r.0.workers| == |s.workers|
    decreases i
  {
    if i == 0 then (s, [])
    else
      var prev := WorkerPass(s, env, dt, time, i - 1);
      var step := WorkerStep(prev.0, env, dt, time, i - 1);
      (step.0, prev.1 + step.1)
  }

  /**
   * After i workers each of them has worked exactly once and the rest are
   * untouched, and the log holds one event per finished task, in worker
   * order: the same completions the offline event system collects.
   */
  lemma {:induction false} WorkerPassLogsEachCompletion(s: GameState.GameState, env: E.Env, dt: real, time: int, i: nat)
    requires i <= |s.workers|
    ensures var r := WorkerPass(s, env, dt, time, i);
            (forall j :: 0 <= j < i ==> r.0.workers[j] == WorkerUpdateModel.Advance(s.workers[j], dt, env.now))
            && (forall j :: i <= j < |s.workers| ==> r.0.workers[j] == s.workers[j])
            && r.1 == Logged(E.Completions(s.workers[..i], dt, env.now), time)
    decreases i
  {
    WorkerPassAdvancesEachOnce(s, env, dt, time, i);
    WorkerPassLogs(s, env, dt, time, i);
  }

  lemma {:induction false} WorkerPassAdvancesEachOnce(s: GameState.GameState, env: E.Env, dt: real, time: int, i: nat)
    requires i <= |s.workers|
    ensures var r := WorkerPass(s, env, dt, time, i);
            (forall j :: 0 <= j < i ==> r.0.workers[j] == WorkerUpdateModel.Advance(s.workers[j], dt, env.now))
            && (forall j :: i <= j < |s.workers| ==> r.0.workers[j] == s.workers[j])
    decreases i
  {
    if i > 0 {
      WorkerPassAdvancesEachOnce(s, env, dt, time, i - 1);
    }
  }

  lemma {:induction false} WorkerPassLogs(s: GameState.GameState, env: E.Env, dt: real, time: int, i: nat)
    requires i <= |s.workers|
    ensures WorkerPass(s, env, dt, time, i).1 == Logged(E.Completions(s.workers[..i], dt, env.now), time)
    decreases i
  {
    if i > 0 {
      WorkerPassLogs(s, env, dt, time, i - 1);
      WorkerPassAdvancesEachOnce(s, env, dt, time, i - 1);
      LoggedStep(s.workers, i - 1, dt, env.now, time);
      var prev := WorkerPass(s, env, dt, time, i - 1);
      var step := WorkerStep(prev.0, env, dt, time, i - 1);
      assert prev.0.workers[i - 1] == s.workers[i - 1];
      assert WorkerPass(s, env, dt, time, i).1 == prev.1 + step.1;
    }
  }

  /** The log of the first i + 1 workers' completions is that of the first i, then worker i's event if it finishes. */
  lemma LoggedStep(workers: seq<Worker>, i: nat, dt: real, now: int, time: int)
    requires i < |workers|
    ensures Logged(E.Completions(workers[..i + 1], dt, now), time)
            == Logged(E.Completions(workers[..i], dt, now), time)
               + (if E.Finishes(workers[i], dt, now) then [CompletedEvent(WorkerLifecycle.UpdateTask(workers[i], dt, now).0, time)] else [])
  {
    var w := workers[i];
    var added := if E.Finishes(w, dt, now) then [WorkerLifecycle.UpdateTask(w, dt, now).0] else [];
    E.CompletionsStep(workers, i, dt, now);
    LoggedAppend(E.Completions(workers[..i], dt, now), added, time);
  }

  lemma LoggedAppend(a: seq<WorkerLifecycle.WorkerTaskResult>, b: seq<WorkerLifecycle.WorkerTaskResult>, time: int)
    ensures Logged(a + b, time) == Logged(a, time) + Logged(b, time)
  {
    assert forall k :: 0 <= k < |b| ==> (a + b)[|a| + k] == b[k];
  }

  /**
   * The whole worker update: every worker works once, as in the offline
   * event system's worker event, and each real completion is logged once.
   */
  lemma WorkerUpdateMatchesEventSystem(s: GameState.GameState, env: E.Env, dt: real, time: int)
    ensures var r := WorkerPass(s, env, dt, time, |s.workers|);
            r.0.workers == E.AdvancedWorkers(s.workers, dt, env.now)
            && r.1 == Logged(E.Completions(s.workers, dt, env.now), time)
            && |r.1| == Seqs.Count(s.workers, (w: Worker) => E.Finishes(w, dt, env.now))
  {
    WorkerPassLogsEachCompletion(s, env, dt, time, |s.workers|);
    assert s.workers[..|s.workers|] == s.workers;
    E.CompletionsAreTheFinishers(s.workers, dt, env.now);
  }

  /** What the loop has built so far: the save, the two counters and the event log. */
  datatype Progress = Progress(save: GameState.GameState, tally: Tally, log: seq<OfflineWorkerEvent>)

  /** ProcessWorkerUpdates: the worker foreach, each logged completion also counted. */
  function WorkerUpdates(p: Progress, env: E.Env, dt: real, time: int): (r: Progress)
  {
    var pass := WorkerPass(p.save, env, dt, time, |p.save.workers|);
    Progress(pass.0, p.tally.(tasksCompleted := p.tally.tasksCompleted + |pass.1|), p.log + pass.1)
  }

  /** ProcessTaskAssignments: one assignment round; a positive drop in idle workers is logged and counted. */
  function TaskAssignments(p: Progress, env: E.Env, time: int): (r: Progress)
  {
    var t := E.TaskEvent(p.save, env);
    if t.1 > 0 then Progress(t.0, p.tally.(tasksAssigned := p.tally.tasksAssigned + t.1), p.log + [TaskAssigned(time, AssignedDescription(t.1))])
    else Progress(t.0, p.tally, p.log)
  }

  /**
   * One pass of the corrected loop: the worker update first, given the
   * worker interval, then the assignment round, each if due.
   */
  function ChunkStep(p: Progress, env: E.Env, workerInterval: int, c: Chunk): (r: Progress)
  {
    var afterWorkers := if c.workerUpdate then WorkerUpdates(p, env, workerInterval as real, c.time) else p;
    if c.taskAssignment then TaskAssignments(afterWorkers, env, c.time) else afterWorkers
  }

  /** One pass of the loop as written: the worker update is given the chunk's deltaTime. */
  function ChunkStepAsWritten(p: Progress, env: E.Env, c: Chunk): (r: Progress)
  {
    var afterWorkers := if c.workerUpdate then WorkerUpdates(p, env, c.deltaTime as real, c.time) else p;
    if c.taskAssignment then TaskAssignments(afterWorkers, env, c.time) else afterWorkers
  }

  /** The corrected loop over a list of passes. */
  function Run(p: Progress, env: E.Env, workerInterval: int, chunks: seq<Chunk>): (r: Progress)
  {
    if |chunks| == 0 then p
    else ChunkStep(Run(p, env, workerInterval, chunks[..|chunks| - 1]), env, workerInterval, chunks[|chunks| - 1])
  }

  /** The loop as written over a list of passes. */
  function RunAsWritten(p: Progress, env: E.Env, chunks: seq<Chunk>): (r: Progress)
  {
    if |chunks| == 0 then p
    else ChunkStepAsWritten(RunAsWritten(p, env, chunks[..|chunks| - 1]), env, chunks[|chunks| - 1])
  }

  /** One more pass of the loop is one more ChunkStep. */
  lemma RunStep(p: Progress, env: E.Env, workerInterval: int, done: seq<Chunk>, c: Chunk)
    ensures Run(p, env, workerInterval, done + [c]) == ChunkStep(Run(p, env, workerInterval, done), env, workerInterval, c)
  {
    assert (done + [c])[..|done|] == done;
  }

  /** The counters only grow, and the log only gets longer, keeping what it held. */
  lemma {:induction false} RunOnlyAdds(p: Progress, env: E.Env, workerInterval: int, chunks: seq<Chunk>)
    ensures var r := Run(p, env, workerInterval, chunks);
            r.tally.tasksCompleted >= p.tally.tasksCompleted && r.tally.tasksAssigned >= p.tally.tasksAssigned
            && |r.log| >= |p.log| && r.log[..|p.log|] == p.log
  {
    if |chunks| > 0 {
      RunOnlyAdds(p, env, workerInterval, chunks[..|chunks| - 1]);
      var prev := Run(p, env, workerInterval, chunks[..|chunks| - 1]);
      var c := chunks[|chunks| - 1];
      var mid := if c.workerUpdate then WorkerUpdates(prev, env, workerInterval as real, c.time) else prev;
      assert mid.log[..|prev.log|] == prev.log;
      var r := Run(p, env, workerInterval, chunks);
      assert r.log[..|mid.log|] == mid.log;
      assert r.log[..|p.log|] == r.log[..|mid.log|][..|prev.log|][..|p.log|];
    }
  }

  /**
   * GetWorkerStateSnapshot's counts: all workers, the idle ones and the
   * busy ones (zero each without game data).
   */
  function Snapshot(game: Nullable<GameState.GameState>): (r: WorkerStateSnapshot)
  {
    WorkerStateSnapshot(WorkerService.GetTotalWorkerCount(game), WorkerService.GetAvailableWorkerCount(game),
                        |WorkerService.GetBusyWorkers(game)|)
  }

  /** The idle and the busy workers of a snapshot add up to all workers. */
  lemma SnapshotCountsAddUp(game: Nullable<GameState.GameState>)
    ensures var r := Snapshot(game);
            r.idleWorkers + r.busyWorkers == r.totalWorkers
            && (game.Some? ==> r.totalWorkers == |game.value.workers|)
            && (game.Null? ==> r == WorkerStateSnapshot(0, 0, 0))
  {
    WorkerService.WorkerCountsDescribeList(game);
  }

  /**
   * SimulateWorkerActivities with the counters threaded through and the
   * worker interval as the workers' time: for a non-positive offline time
   * only the offline time and an empty log are set; otherwise the loop runs
   * over the schedule and the final snapshot is taken.
   */
  function SimulateWorkerActivities(game: Nullable<GameState.GameState>, env: E.Env, workerInterval: int, taskInterval: int,
                                    offlineSeconds: int): (r: (Nullable<GameState.GameState>, OfflineSimulationResult))
    requires workerInterval > 0 && taskInterval > 0
  {
    var result := DefaultResult().(totalOfflineTime := offlineSeconds, eventsProcessed := Some([]));
    if offlineSeconds <= 0 then (game, result)
    else match game
      case Null => (Null, result.(finalWorkerState := Snapshot(Null)))
      case Some(s) =>
        var p := Run(Progress(s, Tally(0, 0), []), env, workerInterval, Schedule(offlineSeconds, workerInterval, taskInterval));
        (Some(p.save), result.(tasksCompleted := p.tally.tasksCompleted, tasksAssigned := p.tally.tasksAssigned,
                               eventsProcessed := Some(p.log), finalWorkerState := Snapshot(Some(p.save))))
  }

  /**
   * SimulateWorkerActivities as the source computes it: the workers are
   * given deltaTime, and the handlers count on copies of the result, so
   * only the log (a shared list) and the snapshot come back.
   */
  function SimulateWorkerActivitiesAsWritten(game: Nullable<GameState.GameState>, env: E.Env, workerInterval: int, taskInterval: int,
                                             offlineSeconds: int): (r: (Nullable<GameState.GameState>, OfflineSimulationResult))
    requires workerInterval > 0 && taskInterval > 0
  {
    var result := DefaultResult().(totalOfflineTime := offlineSeconds, eventsProcessed := Some([]));
    if offlineSeconds <= 0 then (game, result)
    else match game
      case Null => (Null, result.(finalWorkerState := Snapshot(Null)))
      case Some(s) =>
        var p := RunAsWritten(Progress(s, Tally(0, 0), []), env, Schedule(offlineSeconds, workerInterval, taskInterval));
        (Some(p.save), result.(eventsProcessed := Some(p.log), finalWorkerState := Snapshot(Some(p.save))))
  }

  /**
   * The corrected result: it always carries the offline time and a log; a
   * non-positive offline time changes nothing and logs and counts nothing;
   * the counters are never negative, the initial snapshot is never filled
   * in, and the final one's idle and busy workers add up to all workers.
   */
  lemma SimulationReportsItsLog(game: Nullable<GameState.GameState>, env: E.Env, workerInterval: int, taskInterval: int,
                                offlineSeconds: int)
    requires workerInterval > 0 && taskInterval > 0
    ensures var r := SimulateWorkerActivities(game, env, workerInterval, taskInterval, offlineSeconds);
            r.1.totalOfflineTime == offlineSeconds && r.1.eventsProcessed.Some?
            && r.1.initialWorkerState == WorkerStateSnapshot(0, 0, 0)
            && r.1.tasksCompleted >= 0 && r.1.tasksAssigned >= 0
            && (offlineSeconds <= 0 ==> r.0 == game && r.1.eventsProcessed == Some([]) && r.1.tasksCompleted == 0)
            && (game.Null? <==> r.0.Null?)
            && r.1.finalWorkerState.idleWorkers + r.1.finalWorkerState.busyWorkers == r.1.finalWorkerState.totalWorkers
  {
    var r := SimulateWorkerActivities(game, env, workerInterval, taskInterval, offlineSeconds);
    if offlineSeconds > 0 {
      SnapshotCountsAddUp(r.0);
      if game.Some? {
        RunOnlyAdds(Progress(game.value, Tally(0, 0), []), env, workerInterval, Schedule(offlineSeconds, workerInterval, taskInterval));
      }
    }
  }

  /**
   * The struct copies lose every count: as written, the result always
   * reports zero completed and zero assigned tasks, whatever the log holds.
   */
  lemma AsWrittenCountsNothing(game: Nullable<GameState.GameState>, env: E.Env, workerInterval: int, taskInterval: int,
                               offlineSeconds: int)
    requires workerInterval > 0 && taskInterval > 0
    ensures var r := SimulateWorkerActivitiesAsWritten(game, env, workerInterval, taskInterval, offlineSeconds);
            r.1.tasksCompleted == 0 && r.1.tasksAssigned == 0 && r.1.totalOfflineTime == offlineSeconds
  {
  }

  /**
   * The input that shows it: one busy worker planting, with at most a second
   * left, one second offline. Both simulations log the one completion; the
   * corrected result counts it and the as-written one reports 0.
   */
  lemma OneLoggedCompletionIsNotCounted(s: GameState.GameState, env: E.Env)
    requires |s.workers| == 1 && WorkerLifecycle.IsBusy(s.workers[0])
    requires s.workers[0].assignedTask == WorkerLifecycle.WorkerTask.Plant && s.workers[0].timeRemainingOnTask <= 1.0
    ensures SimulateWorkerActivities(Some(s), env, 1, 2, 1).1.tasksCompleted == 1
    ensures |SimulateWorkerActivitiesAsWritten(Some(s), env, 1, 2, 1).1.eventsProcessed.value| == 1
    ensures SimulateWorkerActivitiesAsWritten(Some(s), env, 1, 2, 1).1.tasksCompleted == 0
  {
    var c := Chunk(1, 1, true, false);
    assert Chunks(1, 1, 2, 1, 2, 2) == [];
    assert Schedule(1, 1, 2) == [c];
    assert E.Finishes(s.workers[0], 1.0, env.now);
    var p := Progress(s, Tally(0, 0), []);
    assert [c][..0] == [];
    assert WorkerPass(s, env, 1.0, 1, 0) == (s, []);
    assert |WorkerPass(s, env, 1.0, 1, 1).1| == 1;
    assert Run(p, env, 1, [c]) == ChunkStep(p, env, 1, c);
    assert RunAsWritten(p, env, [c]) == ChunkStepAsWritten(p, env, c);
  }
}
