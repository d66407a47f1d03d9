/**
 * A plot as a value: Empty, Occupied by one entity (the one whose instance
 * id it records) or Locked. The empty string stands for "no entity".
 */
module PlotState {
  import opened Wrappers

  datatype PlotState = Empty | Occupied | Locked

  datatype Plot = Plot(plotID: int, plotState: PlotState, occupyingEntityInstanceID: string)

  /** The constructor taking an id: an empty plot. */
  function NewPlot(id: int): (p: Plot)
    ensures p.plotID == id && p.plotState == Empty && p.occupyingEntityInstanceID == ""
  {
    Plot(id, Empty, "")
  }

  /** The parameterless (JSON) constructor. */
  function DefaultPlot(): (p: Plot)
    ensures p == NewPlot(-1)
  {
    Plot(-1, Empty, "")
  }

  predicate IsEmpty(p: Plot) { p.plotState == Empty }

  predicate IsOccupied(p: Plot) { p.plotState == Occupied }

  /** OccupyPlot: throws ArgumentException (Null here) on an empty id and changes nothing. */
  function OccupyPlot(p: Plot, entityInstanceID: string): (r: Nullable<Plot>)
    ensures entityInstanceID == "" <==> r.Null?
    ensures r.Some? ==> r.value == Plot(p.plotID, Occupied, entityInstanceID)
  {
    if entityInstanceID == "" then Null
    else Some(p.(plotState := Occupied, occupyingEntityInstanceID := entityInstanceID))
  }

  function ClearPlot(p: Plot): (r: Plot)
    ensures r == NewPlot(p.plotID)
  {
    p.(plotState := Empty, occupyingEntityInstanceID := "")
  }

  /** HasEntity: the plot is occupied, by that entity. */
  predicate HasEntity(p: Plot, entityInstanceID: string)
  {
    IsOccupied(p) && p.occupyingEntityInstanceID == entityInstanceID
  }

  /** ValidateState: an empty plot forgets its id; an occupied plot without one becomes empty. */
  function ValidateState(p: Plot): (r: Plot)
    ensures r.plotID == p.plotID
    ensures p.plotState == Locked ==> r == p
    ensures Consistent(p) ==> r == p
  {
    if p.plotState == Empty && p.occupyingEntityInstanceID != "" then p.(occupyingEntityInstanceID := "")
    else if p.plotState == Occupied && p.occupyingEntityInstanceID == "" then p.(plotState := Empty)
    else p
  }

  /** Empty means no id and Occupied means an id. */
  predicate Consistent(p: Plot)
  {
    (p.plotState == Empty ==> p.occupyingEntityInstanceID == "")
    && (p.plotState == Occupied ==> p.occupyingEntityInstanceID != "")
  }

  /** After ValidateState the plot is consistent, and validating again changes nothing. */
  lemma ValidateStateMakesConsistent(p: Plot)
    ensures Consistent(ValidateState(p))
    ensures ValidateState(ValidateState(p)) == ValidateState(p)
  {
  }

  /** Occupying and clearing produce consistent plots. */
  lemma OccupyAndClearAreConsistent(p: Plot, entityInstanceID: string)
    ensures Consistent(ClearPlot(p))
    ensures OccupyPlot(p, entityInstanceID).Some? ==> Consistent(OccupyPlot(p, entityInstanceID).value)
    ensures OccupyPlot(p, entityInstanceID).Some? ==> HasEntity(OccupyPlot(p, entityInstanceID).value, entityInstanceID)
    ensures forall id :: !HasEntity(ClearPlot(p), id)
  {
  }
}
