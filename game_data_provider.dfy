/**
 * The provider the services write through: it finds the stored plot,
 * entity or worker by id and copies fields onto it. Every operation does
 * nothing when no game data is loaded.
 */
module GameDataProvider {
  import opened Wrappers
  import PlotState
  import EntityLifecycle
  import WorkerLifecycle
  import GameState
  import GameSaveData

  /** IsValidGameState: false without game data, otherwise the save's own validity. */
  predicate IsValidGameState(game: Nullable<GameState.GameState>)
  {
    game.Some? && GameState.IsValidSave(game.value)
  }

  lemma IsValidGameStateCases(game: Nullable<GameState.GameState>)
    ensures game.Null? ==> !IsValidGameState(game)
    ensures game.Some? ==> (IsValidGameState(game) <==> GameState.IsValidSave(game.value))
  {
  }

  method UpdatePlot(game: GameSaveData.GameSaveData?, plot: PlotState.Plot)
    modifies game
    ensures game != null ==> game.player == old(game.player)
    ensures game != null ==> game.State() == GameState.UpdatePlot(old(game.State()), plot)
  {
    if game != null {
      match GameState.PlotIndex(game.State(), plot.plotID)
      case Null =>
      case Some(j) =>
        var existing := game.plots[j];
        existing := existing.(plotState := plot.plotState, occupyingEntityInstanceID := plot.occupyingEntityInstanceID);
        game.plots := game.plots[j := PlotState.ValidateState(existing)];
    }
  }

  /** AddPlot: append the plot numbered by the old count and sync the player's plot total. */
  method AddPlot(game: GameSaveData.GameSaveData?)
    modifies game, if game == null then {} else {game.player}
    ensures game != null ==> game.player == old(game.player)
    ensures game != null ==> game.State() == GameState.AddPlot(old(game.State()))
  {
    if game != null {
      var newPlotID := |game.plots|;
      game.plots := game.plots + [PlotState.NewPlot(newPlotID)];
      game.player.totalLandPlots := |game.plots|;
    }
  }

  method UpdateFarmEntity(game: GameSaveData.GameSaveData?, entity: EntityLifecycle.Entity)
    modifies game
    ensures game != null ==> game.player == old(game.player)
    ensures game != null ==> game.State() == GameState.UpdateFarmEntity(old(game.State()), entity)
  {
    if game != null {
      match GameState.EntityIndex(game.State(), entity.instanceID)
      case Null =>
      case Some(j) =>
        var existing := game.entities[j];
        existing := existing.(currentState := entity.currentState, lastUpdateTimestamp := entity.lastUpdateTimestamp);
        game.entities := game.entities[j := existing];
    }
  }

  method UpdateWorker(game: GameSaveData.GameSaveData?, worker: WorkerLifecycle.Worker)
    modifies game
    ensures game != null ==> game.player == old(game.player)
    ensures game != null ==> game.State() == GameState.UpdateWorker(old(game.State()), worker)
  {
    if game != null {
      match GameState.WorkerIndex(game.State(), worker.workerID)
      case Null =>
      case Some(j) =>
        var existing := game.workers[j];
        existing := existing.(state := worker.state, assignedTask := worker.assignedTask,
                              taskTargetInstanceID := worker.taskTargetInstanceID,
                              timeRemainingOnTask := worker.timeRemainingOnTask,
                              lastUpdateTimestamp := worker.lastUpdateTimestamp);
        game.workers := game.workers[j := existing];
    }
  }

  /** AddWorker is handed on to the save. */
  method AddWorker(game: GameSaveData.GameSaveData?, now: int)
    modifies game, if game == null then {} else {game.player}
    ensures game != null ==> game.player == old(game.player)
    ensures game != null ==> game.State() == GameState.AddWorker(old(game.State()), now)
  {
    if game != null {
      game.AddWorker(now);
    }
  }
}
