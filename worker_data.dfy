/** The worker as the object the game keeps; each method is specified by WorkerLifecycle. */
module WorkerData {
  import opened Wrappers
  import opened GameSettings
  import WorkerLifecycle

  class WorkerData {
    var workerID: string
    var state: WorkerLifecycle.WorkerState
    var assignedTask: WorkerLifecycle.WorkerTask
    var taskTargetInstanceID: WorkerLifecycle.TaskTarget
    var timeRemainingOnTask: real
    var lastUpdateTimestamp: int

    function Value(): WorkerLifecycle.Worker
      reads this
    {
      WorkerLifecycle.Worker(workerID, state, assignedTask, taskTargetInstanceID, timeRemainingOnTask, lastUpdateTimestamp)
    }

    constructor (id: string, now: int)
      ensures Value() == WorkerLifecycle.NewWorker(id, now)
    {
      workerID := id;
      state := WorkerLifecycle.Idle;
      assignedTask := WorkerLifecycle.WorkerTask.None;
      taskTargetInstanceID := Null;
      timeRemainingOnTask := 0.0;
      lastUpdateTimestamp := now;
    }

    predicate IsIdle()
      reads this
    {
      state == WorkerLifecycle.Idle
    }

    predicate IsBusy()
      reads this
    {
      state == WorkerLifecycle.Busy
    }

    method AssignTask(task: WorkerLifecycle.WorkerTask, targetInstanceID: WorkerLifecycle.TaskTarget,
                      settings: Nullable<GameSettings>, now: int)
      modifies this
      ensures Value() == WorkerLifecycle.AssignTask(old(Value()), task, targetInstanceID, settings, now)
    {
      if state == WorkerLifecycle.Busy {
        return;
      }
      state := WorkerLifecycle.Busy;
      assignedTask := task;
      taskTargetInstanceID := targetInstanceID;
      timeRemainingOnTask := if settings.Some? then settings.value.workerTaskDuration * 60.0 else 120.0;
      lastUpdateTimestamp := now;
    }

    method UpdateTask(deltaTime: real, now: int) returns (result: WorkerLifecycle.WorkerTaskResult)
      modifies this
      ensures (result, Value()) == WorkerLifecycle.UpdateTask(old(Value()), deltaTime, now)
    {
      result := WorkerLifecycle.WorkerTaskResult(workerID, WorkerLifecycle.WorkerTask.None, taskTargetInstanceID, false);
      if state != WorkerLifecycle.Busy {
        return;
      }
      timeRemainingOnTask := timeRemainingOnTask - deltaTime;
      if timeRemainingOnTask <= 0.0 {
        result := CompleteTask(now);
      }
      lastUpdateTimestamp := now;
    }

    method CompleteTask(now: int) returns (result: WorkerLifecycle.WorkerTaskResult)
      modifies this
      ensures (result, Value()) == WorkerLifecycle.CompleteTask(old(Value()), now)
    {
      result := WorkerLifecycle.WorkerTaskResult(workerID, assignedTask, taskTargetInstanceID, true);
      state := WorkerLifecycle.Idle;
      assignedTask := WorkerLifecycle.WorkerTask.None;
      taskTargetInstanceID := Null;
      timeRemainingOnTask := 0.0;
      lastUpdateTimestamp := now;
    }

    method CancelTask(now: int)
      modifies this
      ensures Value() == WorkerLifecycle.CancelTask(old(Value()), now)
    {
      state := WorkerLifecycle.Idle;
      assignedTask := WorkerLifecycle.WorkerTask.None;
      taskTargetInstanceID := Null;
      timeRemainingOnTask := 0.0;
      lastUpdateTimestamp := now;
    }

    method UpdateFromOfflineTime(currentTimestamp: int)
      modifies this
      ensures Value() == WorkerLifecycle.UpdateFromOfflineTime(old(Value()), currentTimestamp)
    {
      if lastUpdateTimestamp <= 0 || state != WorkerLifecycle.Busy {
        return;
      }
      var offlineSeconds := currentTimestamp - lastUpdateTimestamp;
      if offlineSeconds > 0 {
        var _ := UpdateTask(offlineSeconds as real, currentTimestamp);
      }
    }

    function GetTaskProgress(settings: Nullable<GameSettings>): Nullable<real>
      reads this
    {
      WorkerLifecycle.GetTaskProgress(Value(), settings)
    }
  }
}
