/**
 * The plot service's cache. RefreshPlotsFromGameData copies the save's plot
 * list, so the cache holds the very plot objects of the save: it sees every
 * later change made to them, but not plots appended after the refresh. It is
 * therefore modelled as the number of leading save plots it holds.
 */
module PlotCache {
  import opened Wrappers
  import opened Seqs
  import PlotState
  import GameState

  datatype PlotCache = PlotCache(initialized: bool, count: nat)

  /** A new service: not initialised, nothing cached. */
  const Uninitialized := PlotCache(false, 0)

  function Min(a: nat, b: nat): nat { if a <= b then a else b }

  /** How many leading plots of the save the cache can reach. */
  function Reach(cache: PlotCache, s: GameState.GameState): (n: nat)
    ensures n <= |s.plots| && n <= cache.count
  {
    Min(cache.count, |s.plots|)
  }

  /**
   * RefreshPlotsFromGameData: cache the save's plots (none without game
   * data) and, when a navigation service is attached, pull a current index
   * that is past the end back to the last plot (to 0 for no plots).
   */
  function Refresh(game: Nullable<GameState.GameState>, current: nat, hasNavigation: bool): (out: (PlotCache, nat))
    ensures out.0.initialized
    ensures game.Null? ==> out == (PlotCache(true, 0), current)
    ensures game.Some? ==> out.0.count == |game.value.plots|
    ensures game.Some? && hasNavigation && current >= |game.value.plots| ==>
              out.1 == (if |game.value.plots| == 0 then 0 else |game.value.plots| - 1)
    ensures !(game.Some? && hasNavigation && current >= |game.value.plots|) ==> out.1 == current
    ensures game.Some? && hasNavigation && |game.value.plots| > 0 ==> out.1 < out.0.count
  {
    if game.Null? then (PlotCache(true, 0), current)
    else
      var count := |game.value.plots|;
      var clamped := if hasNavigation && current >= count then (if count - 1 < 0 then 0 else count - 1) else current;
      (PlotCache(true, count), clamped)
  }

  /** GetPlot through the cache: nothing before initialisation, otherwise the first cached plot with that id, as a position in the save. */
  function GetPlot(cache: PlotCache, s: GameState.GameState, plotID: int): (r: Nullable<nat>)
    ensures !cache.initialized ==> r.Null?
    ensures cache.initialized ==>
              (r.Null? <==> forall j :: 0 <= j < Reach(cache, s) ==> s.plots[j].plotID != plotID)
    ensures r.Some? ==> r.value < Reach(cache, s) && s.plots[r.value].plotID == plotID
    ensures r.Some? ==> forall j :: 0 <= j < r.value ==> s.plots[j].plotID != plotID
  {
    if !cache.initialized then Null
    else FirstIndex(s.plots[..Reach(cache, s)], (p: PlotState.Plot) => p.plotID == plotID)
  }

  /** GetCurrentPlot: the cached plot at list position `current`, if there is one. */
  function GetCurrentPlot(cache: PlotCache, current: nat, s: GameState.GameState): (r: Nullable<nat>)
    ensures r.Some? <==> cache.initialized && current < Reach(cache, s)
    ensures r.Some? ==> r.value == current
  {
    if !cache.initialized || current >= Reach(cache, s) then Null else Some(current)
  }

  /** Right after a refresh the cache finds exactly what the save finds. */
  lemma RefreshedLookupIsSaveLookup(s: GameState.GameState, current: nat, hasNavigation: bool, plotID: int)
    ensures GetPlot(Refresh(Some(s), current, hasNavigation).0, s, plotID) == GameState.PlotIndex(s, plotID)
  {
    var cache := Refresh(Some(s), current, hasNavigation).0;
    assert s.plots[..Reach(cache, s)] == s.plots;
  }

  /** With plot ids equal to positions, the current plot is the plot whose id is the current index. */
  lemma CurrentPlotIsLookupOfCurrentID(cache: PlotCache, current: nat, s: GameState.GameState)
    requires GameState.PlotIdsMatchIndex(s)
    ensures GetCurrentPlot(cache, current, s) == GetPlot(cache, s, current)
  {
    if cache.initialized && current < Reach(cache, s) {
      assert s.plots[current].plotID == current;
    }
  }

  /** A plot bought after the last refresh stays invisible to the cache until the next one. */
  lemma PlotAddedAfterRefreshIsNotCached(s: GameState.GameState, current: nat, hasNavigation: bool)
    requires GameState.PlotIdsMatchIndex(s)
    ensures var cache := Refresh(Some(s), current, hasNavigation).0;
            var added := GameState.AddPlot(s);
            GameState.GetPlot(added, |s.plots|).Some? && GetPlot(cache, added, |s.plots|).Null?
  {
    var added := GameState.AddPlot(s);
    assert added.plots[|s.plots|].plotID == |s.plots|;
  }
}
