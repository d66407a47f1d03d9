/**
 * The index of the plot the player is looking at, moved only to a position
 * the plot cache holds. Every write stores a non-negative index (the
 * constructor writes 0, SwitchToPlot rejects negatives and the refresh clamps
 * at 0), so it is a `nat` and the truncating % of the source agrees with
 * Dafny's.
 */
module PlotNavigation {
  import opened PlotCache

  /** A switch is accepted once the cache is initialised and the id is a cached position. */
  predicate CanSwitch(cache: PlotCache, plotID: int)
  {
    cache.initialized && 0 <= plotID < cache.count
  }

  /** The position after `current`, wrapping to 0 after the last. */
  function NextIndex(current: nat, total: nat): (n: nat)
    requires total > 0
    ensures n < total
    ensures current + 1 < total ==> n == current + 1
    ensures current + 1 == total ==> n == 0
  {
    (current + 1) % total
  }

  /** The position before `current`, wrapping to the last before 0. */
  function PreviousIndex(current: nat, total: nat): (n: nat)
    requires total > 0
    ensures n < total
    ensures 0 < current <= total ==> n == current - 1
    ensures current == 0 ==> n == total - 1
  {
    (current - 1 + total) % total
  }

  /** Moving forward then back (or back then forward) from a valid position returns to it. */
  lemma NextAndPreviousAreInverse(current: nat, total: nat)
    requires current < total
    ensures PreviousIndex(NextIndex(current, total), total) == current
    ensures NextIndex(PreviousIndex(current, total), total) == current
  {
  }

  class PlotNavigationService {
    var currentPlotID: nat

    constructor ()
      ensures currentPlotID == 0
    {
      currentPlotID := 0;
    }

    /** SwitchToPlot; `changed` says whether OnCurrentPlotChanged fired. */
    method SwitchToPlot(cache: PlotCache, plotID: int) returns (ok: bool, changed: bool)
      modifies this
      ensures ok <==> CanSwitch(cache, plotID)
      ensures ok ==> currentPlotID == plotID
      ensures !ok ==> currentPlotID == old(currentPlotID)
      ensures changed <==> ok && old(currentPlotID) != plotID
    {
      if !cache.initialized {
        return false, false;
      }
      var totalPlots := cache.count;
      if plotID < 0 || plotID >= totalPlots {
        return false, false;
      }
      changed := false;
      if currentPlotID != plotID {
        currentPlotID := plotID;
        changed := true;
      }
      ok := true;
    }

    method NextPlot(cache: PlotCache) returns (ok: bool, changed: bool)
      modifies this
      ensures ok <==> cache.initialized && cache.count > 0
      ensures ok ==> currentPlotID == NextIndex(old(currentPlotID), cache.count)
      ensures !ok ==> currentPlotID == old(currentPlotID) && !changed
    {
      if !cache.initialized || cache.count == 0 {
        return false, false;
      }
      var nextPlotID := NextIndex(currentPlotID, cache.count);
      ok, changed := SwitchToPlot(cache, nextPlotID);
    }

    method PreviousPlot(cache: PlotCache) returns (ok: bool, changed: bool)
      modifies this
      ensures ok <==> cache.initialized && cache.count > 0
      ensures ok ==> currentPlotID == PreviousIndex(old(currentPlotID), cache.count)
      ensures !ok ==> currentPlotID == old(currentPlotID) && !changed
    {
      if !cache.initialized || cache.count == 0 {
        return false, false;
      }
      var prevPlotID := PreviousIndex(currentPlotID, cache.count);
      ok, changed := SwitchToPlot(cache, prevPlotID);
    }
  }
}
