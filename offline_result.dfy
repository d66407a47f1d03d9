/**
 * The record both offline simulators return: the offline time, the two task
 * counters, the log of worker events and the worker snapshots. The worker
 * event struct carries either a completed task or an assignment note, so it
 * is a datatype with one constructor per use.
 */
module OfflineResult {
  import opened Wrappers
  import Text
  import WorkerLifecycle

  datatype OfflineWorkerEvent =
    | TaskCompleted(timestamp: int, workerID: string, taskType: WorkerLifecycle.WorkerTask, targetID: WorkerLifecycle.TaskTarget)
    | TaskAssigned(timestamp: int, description: string)

  /** The snapshot's three counts; the per-worker state dictionary is not part of this model. */
  datatype WorkerStateSnapshot = WorkerStateSnapshot(totalWorkers: int, idleWorkers: int, busyWorkers: int)

  /** eventsProcessed is Null where the struct's list was never created. */
  datatype OfflineSimulationResult = OfflineSimulationResult(
    totalOfflineTime: int,
    tasksCompleted: int,
    tasksAssigned: int,
    eventsProcessed: Nullable<seq<OfflineWorkerEvent>>,
    initialWorkerState: WorkerStateSnapshot,
    finalWorkerState: WorkerStateSnapshot)

  /** The struct's default value: every number zero and no event list. */
  function DefaultResult(): (r: OfflineSimulationResult)
    ensures r.totalOfflineTime == 0 && r.tasksCompleted == 0 && r.tasksAssigned == 0 && r.eventsProcessed.Null?
  {
    OfflineSimulationResult(0, 0, 0, Null, WorkerStateSnapshot(0, 0, 0), WorkerStateSnapshot(0, 0, 0))
  }

  /** The two counters a replay adds to. */
  datatype Tally = Tally(tasksCompleted: int, tasksAssigned: int)

  /** The log line of an assignment round. */
  function AssignedDescription(newAssignments: nat): string
  {
    Text.NatToString(newAssignments) + " workers assigned to tasks"
  }
}
