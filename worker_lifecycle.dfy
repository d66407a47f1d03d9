/**
 * A worker as a value: Idle or Busy with one task on one plot for a fixed
 * duration. A task's target is a plot id; the C# code stores it as the id's
 * decimal text and the empty string for "no target", which are Some(id) and
 * Null here.
 */
module WorkerLifecycle {
  import opened Wrappers
  import opened GameSettings

  datatype WorkerState = Idle | Busy

  datatype WorkerTask = None | Plant | Harvest | Milk

  type TaskTarget = Nullable<int>

  datatype Worker = Worker(
    workerID: string,
    state: WorkerState,
    assignedTask: WorkerTask,
    taskTargetInstanceID: TaskTarget,
    timeRemainingOnTask: real,
    lastUpdateTimestamp: int)

  datatype WorkerTaskResult = WorkerTaskResult(
    workerID: string,
    completedTask: WorkerTask,
    targetInstanceID: TaskTarget,
    success: bool)

  predicate IsIdle(w: Worker) { w.state == Idle }

  predicate IsBusy(w: Worker) { w.state == Busy }

  /** The constructor: an idle worker with nothing to do. */
  function NewWorker(workerID: string, now: int): (w: Worker)
    ensures w.workerID == workerID && IsIdle(w) && w.assignedTask == WorkerTask.None
    ensures w.taskTargetInstanceID == Null && w.timeRemainingOnTask == 0.0
  {
    Worker(workerID, Idle, WorkerTask.None, Null, 0.0, now)
  }

  /** Seconds a task takes: workerTaskDuration minutes, or two minutes without settings. */
  function TaskDuration(settings: Nullable<GameSettings>): (seconds: real)
    ensures settings.Null? ==> seconds == 120.0
    ensures settings.Some? ==> seconds == settings.value.workerTaskDuration * 60.0
  {
    if settings.Some? then settings.value.workerTaskDuration * 60.0 else 120.0
  }

  /** AssignTask: a busy worker keeps its task (the source only logs a warning). */
  function AssignTask(w: Worker, task: WorkerTask, target: TaskTarget,
                      settings: Nullable<GameSettings>, now: int): (r: Worker)
    ensures IsBusy(w) ==> r == w
    ensures IsIdle(w) ==> r == Worker(w.workerID, Busy, task, target, TaskDuration(settings), now)
  {
    if w.state == Busy then w
    else w.(state := Busy, assignedTask := task, taskTargetInstanceID := target,
             timeRemainingOnTask := TaskDuration(settings), lastUpdateTimestamp := now)
  }

  /** The idle reset shared by completion and cancellation. */
  function Reset(w: Worker, now: int): (r: Worker)
    ensures r == NewWorker(w.workerID, now)
  {
    w.(state := Idle, assignedTask := WorkerTask.None, taskTargetInstanceID := Null,
       timeRemainingOnTask := 0.0, lastUpdateTimestamp := now)
  }

  /** CompleteTask: report which task was done, then go idle. */
  function CompleteTask(w: Worker, now: int): (out: (WorkerTaskResult, Worker))
    ensures out.0 == WorkerTaskResult(w.workerID, w.assignedTask, w.taskTargetInstanceID, true)
    ensures out.1 == NewWorker(w.workerID, now)
  {
    (WorkerTaskResult(w.workerID, w.assignedTask, w.taskTargetInstanceID, true), Reset(w, now))
  }

  /** CancelTask: go idle; no progress is kept. */
  function CancelTask(w: Worker, now: int): (r: Worker)
    ensures r == NewWorker(w.workerID, now)
  {
    Reset(w, now)
  }

  /** UpdateTask(dt): work for dt seconds, completing its task when its time runs out. */
  function UpdateTask(w: Worker, dt: real, now: int): (out: (WorkerTaskResult, Worker))
    ensures !IsBusy(w) ==> out == (WorkerTaskResult(w.workerID, WorkerTask.None, w.taskTargetInstanceID, false), w)
    ensures IsBusy(w) ==> (out.0.success <==> w.timeRemainingOnTask - dt <= 0.0)
    ensures IsBusy(w) && out.0.success ==>
              out.0 == WorkerTaskResult(w.workerID, w.assignedTask, w.taskTargetInstanceID, true)
              && out.1 == NewWorker(w.workerID, now)
    ensures IsBusy(w) && !out.0.success ==>
              out.0.completedTask == WorkerTask.None
              && out.1 == w.(timeRemainingOnTask := w.timeRemainingOnTask - dt, lastUpdateTimestamp := now)
  {
    var result := WorkerTaskResult(w.workerID, WorkerTask.None, w.taskTargetInstanceID, false);
    if w.state != Busy then (result, w)
    else
      var worked := w.(timeRemainingOnTask := w.timeRemainingOnTask - dt);
      if worked.timeRemainingOnTask <= 0.0 then CompleteTask(worked, now)
      else (result, worked.(lastUpdateTimestamp := now))
  }

  /** UpdateFromOfflineTime: a busy worker with a stored timestamp works off the elapsed seconds. */
  function UpdateFromOfflineTime(w: Worker, now: int): (r: Worker)
    ensures w.lastUpdateTimestamp <= 0 || !IsBusy(w) || now - w.lastUpdateTimestamp <= 0 ==> r == w
    ensures w.lastUpdateTimestamp > 0 && IsBusy(w) && now - w.lastUpdateTimestamp > 0 ==>
              r == UpdateTask(w, (now - w.lastUpdateTimestamp) as real, now).1
  {
    if w.lastUpdateTimestamp <= 0 || w.state != Busy then w
    else
      var offlineSeconds := now - w.lastUpdateTimestamp;
      if offlineSeconds > 0 then UpdateTask(w, offlineSeconds as real, now).1 else w
  }

  /**
   * GetTaskProgress: 1 - remaining / total for a busy worker, 0 otherwise.
   * Null stands for the non-finite float the division gives when the total is 0.
   */
  function GetTaskProgress(w: Worker, settings: Nullable<GameSettings>): (p: Nullable<real>)
    ensures !IsBusy(w) ==> p == Some(0.0)
    ensures IsBusy(w) && TaskDuration(settings) != 0.0 ==>
              p.Some? && p.value * TaskDuration(settings) == TaskDuration(settings) - w.timeRemainingOnTask
    ensures IsBusy(w) && TaskDuration(settings) == 0.0 ==> p.Null?
  {
    if w.state != Busy then Some(0.0)
    else
      var totalTaskTime := TaskDuration(settings);
      if totalTaskTime == 0.0 then Null else Some(1.0 - w.timeRemainingOnTask / totalTaskTime)
  }

  /** An idle worker holds no task, no target and no time. */
  predicate IdleIsReset(w: Worker)
  {
    IsIdle(w) ==> w.assignedTask == WorkerTask.None && w.taskTargetInstanceID == Null && w.timeRemainingOnTask == 0.0
  }

  /** Every operation keeps that invariant. */
  lemma OperationsKeepIdleIsReset(w: Worker, task: WorkerTask, target: TaskTarget,
                                  settings: Nullable<GameSettings>, dt: real, now: int)
    requires IdleIsReset(w)
    ensures IdleIsReset(AssignTask(w, task, target, settings, now))
    ensures IdleIsReset(UpdateTask(w, dt, now).1)
    ensures IdleIsReset(CompleteTask(w, now).1)
    ensures IdleIsReset(CancelTask(w, now))
    ensures IdleIsReset(UpdateFromOfflineTime(w, now))
  {
  }

  /**
   * With a positive duration and non-negative steps, a busy worker always has
   * time left, never more than a task's duration.
   */
  predicate TimeWithinTask(w: Worker, settings: Nullable<GameSettings>)
  {
    IsBusy(w) ==> 0.0 < w.timeRemainingOnTask <= TaskDuration(settings)
  }

  lemma UpdateTaskKeepsTimeWithinTask(w: Worker, settings: Nullable<GameSettings>, dt: real, now: int)
    requires TimeWithinTask(w, settings) && dt >= 0.0
    ensures TimeWithinTask(UpdateTask(w, dt, now).1, settings)
  {
  }

  lemma AssignTaskKeepsTimeWithinTask(w: Worker, task: WorkerTask, target: TaskTarget,
                                      settings: Nullable<GameSettings>, now: int)
    requires TimeWithinTask(w, settings) && TaskDuration(settings) > 0.0
    ensures TimeWithinTask(AssignTask(w, task, target, settings, now), settings)
  {
  }

  /** So the progress of a worker stays within [0, 1). */
  lemma ProgressInUnitInterval(w: Worker, settings: Nullable<GameSettings>)
    requires TimeWithinTask(w, settings) && TaskDuration(settings) > 0.0
    ensures var p := GetTaskProgress(w, settings); p.Some? && 0.0 <= p.value < 1.0
  {
    if IsBusy(w) {
      var total := TaskDuration(settings);
      var p := GetTaskProgress(w, settings).value;
      assert p * total == total - w.timeRemainingOnTask;
      assert p * total < total;
      assert p * total >= 0.0;
    }
  }

  /** A freshly assigned task completes on one update whose time step is the whole task duration. */
  lemma FullDurationCompletes(w: Worker, task: WorkerTask, target: TaskTarget,
                              settings: Nullable<GameSettings>, now: int)
    requires IsIdle(w)
    ensures var busy := AssignTask(w, task, target, settings, now);
      UpdateTask(busy, TaskDuration(settings), now).0 == WorkerTaskResult(w.workerID, task, target, true)
  {
  }
}
