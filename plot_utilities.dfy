/** Free-position search on a plot of ten positions. */
module PlotUtilities {
  import EntityLifecycle
  import GameState
  import PlotEntityQueries

  /** Every plot has ten positions, 0..9. */
  const MaxPositions: nat := 10

  function GetMaxPositionsForPlot(plotID: int): (n: nat)
    ensures n == 10
  {
    MaxPositions
  }

  /** IsPositionOccupied: some entity on the plot stands at that position. */
  predicate IsPositionOccupied(s: GameState.GameState, plotID: int, positionIndex: int)
  {
    var entities := PlotEntityQueries.GetPlotEntities(s, plotID);
    exists j :: 0 <= j < |entities| && entities[j].positionIndex == positionIndex
  }

  /** The least free position at or after `from`, or -1 when from..9 are all taken. */
  function FirstFreeFrom(s: GameState.GameState, plotID: int, from: nat): (pos: int)
    requires from <= MaxPositions
    decreases MaxPositions - from
    ensures pos == -1 || from <= pos < MaxPositions
    ensures pos == -1 <==> forall i :: from <= i < MaxPositions ==> IsPositionOccupied(s, plotID, i)
    ensures pos >= 0 ==> !IsPositionOccupied(s, plotID, pos)
    ensures pos >= 0 ==> forall i :: from <= i < pos ==> IsPositionOccupied(s, plotID, i)
  {
    if from == MaxPositions then -1
    else if !IsPositionOccupied(s, plotID, from) then from
    else FirstFreeFrom(s, plotID, from + 1)
  }

  /** The position FindNextAvailablePosition picks: the least free one, -1 when all ten are taken. */
  function NextAvailablePosition(s: GameState.GameState, plotID: int): (pos: int)
    ensures -1 <= pos < MaxPositions
    ensures pos == -1 <==> forall i :: 0 <= i < MaxPositions ==> IsPositionOccupied(s, plotID, i)
    ensures pos >= 0 ==> !IsPositionOccupied(s, plotID, pos)
    ensures pos >= 0 ==> forall i :: 0 <= i < pos ==> IsPositionOccupied(s, plotID, i)
  {
    FirstFreeFrom(s, plotID, 0)
  }

  /** FindNextAvailablePosition: gather the taken positions in a set, then scan 0..9 for the first one missing. */
  method FindNextAvailablePosition(s: GameState.GameState, plotID: int) returns (pos: int)
    ensures pos == NextAvailablePosition(s, plotID)
  {
    var existingEntities := PlotEntityQueries.GetPlotEntities(s, plotID);
    var occupiedPositions: set<int> := {};
    var k := 0;
    while k < |existingEntities|
      invariant 0 <= k <= |existingEntities|
      invariant forall p :: p in occupiedPositions <==> exists j :: 0 <= j < k && existingEntities[j].positionIndex == p
    {
      occupiedPositions := occupiedPositions + {existingEntities[k].positionIndex};
      k := k + 1;
    }
    var maxPositions := 10;
    var i := 0;
    while i < maxPositions
      invariant 0 <= i <= maxPositions
      invariant forall q :: 0 <= q < i ==> IsPositionOccupied(s, plotID, q)
    {
      if i !in occupiedPositions {
        return i;
      }
      i := i + 1;
    }
    return -1;
  }
}
