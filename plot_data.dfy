/** The plot as the object the game keeps; each method is specified by PlotState. */
module PlotData {
  import opened Wrappers
  import PlotState

  class PlotData {
    var plotID: int
    var plotState: PlotState.PlotState
    var occupyingEntityInstanceID: string

    function Value(): PlotState.Plot
      reads this
    {
      PlotState.Plot(plotID, plotState, occupyingEntityInstanceID)
    }

    constructor (id: int)
      ensures Value() == PlotState.NewPlot(id)
    {
      plotID := id;
      plotState := PlotState.Empty;
      occupyingEntityInstanceID := "";
    }

    predicate IsEmpty()
      reads this
    {
      PlotState.IsEmpty(Value())
    }

    predicate IsOccupied()
      reads this
    {
      PlotState.IsOccupied(Value())
    }

    predicate HasEntity(entityInstanceID: string)
      reads this
    {
      PlotState.HasEntity(Value(), entityInstanceID)
    }

    /** Returns false where the source throws ArgumentException; nothing changes then. */
    method OccupyPlot(entityInstanceID: string) returns (ok: bool)
      modifies this
      ensures ok <==> PlotState.OccupyPlot(old(Value()), entityInstanceID).Some?
      ensures ok ==> Value() == PlotState.OccupyPlot(old(Value()), entityInstanceID).value
      ensures !ok ==> Value() == old(Value())
    {
      if entityInstanceID == "" {
        return false;
      }
      plotState := PlotState.Occupied;
      occupyingEntityInstanceID := entityInstanceID;
      return true;
    }

    method ClearPlot()
      modifies this
      ensures Value() == PlotState.ClearPlot(old(Value()))
    {
      plotState := PlotState.Empty;
      occupyingEntityInstanceID := "";
    }

    method ValidateState()
      modifies this
      ensures Value() == PlotState.ValidateState(old(Value()))
    {
      if plotState == PlotState.Empty && occupyingEntityInstanceID != "" {
        occupyingEntityInstanceID := "";
      } else if plotState == PlotState.Occupied && occupyingEntityInstanceID == "" {
        plotState := PlotState.Empty;
      }
    }
  }
}
