/**
 * Automatic and manual task assignment as functions on the save. Idle
 * workers are offered harvest work first (one plot with collectable products
 * each, Milk when its first entity is an animal), then planting work with
 * the inventory item of highest product value; planting happens at
 * assignment. A worker is identified by its position in the worker list.
 */
module WorkerTaskAssignmentModel {
  import opened Wrappers
  import opened GameEnums
  import opened Definitions
  import opened Catalog
  import Seqs
  import Int32
  import PlotState
  import WorkerLifecycle
  import GameState
  import PlotCache
  import PlotEntityQueries
  import PlotPlantingModel

  type Worker = WorkerLifecycle.Worker
  type WorkerTask = WorkerLifecycle.WorkerTask

  // ------------------------------------------------------------ the one-worker rule

  predicate InHarvestFamily(t: WorkerTask)
  {
    t == WorkerTask.Harvest || t == WorkerTask.Milk
  }

  /** The worker is busy with a task of the harvest family (or with planting) on the plot. */
  predicate AssignedTo(w: Worker, plotID: int, harvest: bool)
  {
    WorkerLifecycle.IsBusy(w) && w.taskTargetInstanceID == Some(plotID)
    && (if harvest then InHarvestFamily(w.assignedTask) else w.assignedTask == WorkerTask.Plant)
  }

  /** The Any of an assignment check: some worker is already on the plot for that family. */
  predicate IsAlreadyAssigned(workers: seq<Worker>, plotID: int, harvest: bool)
  {
    exists j :: 0 <= j < |workers| && AssignedTo(workers[j], plotID, harvest)
  }

  /** No two workers are on the same plot for the same family. */
  ghost predicate NoDoubleAssignment(workers: seq<Worker>)
  {
    forall i, j, plotID: int, harvest: bool :: 0 <= i < j < |workers| && AssignedTo(workers[i], plotID, harvest)
                                               ==> !AssignedTo(workers[j], plotID, harvest)
  }

  /** worker.AssignTask(task, plotID.ToString()) on the worker at position w. */
  function AssignWorker(s: GameState.GameState, w: nat, task: WorkerTask, plotID: int, cat: Catalog, now: int): (r: GameState.GameState)
    requires w < |s.workers|
    ensures |r.workers| == |s.workers|
    ensures forall j :: 0 <= j < |s.workers| && j != w ==> r.workers[j] == s.workers[j]
    ensures WorkerLifecycle.IsIdle(s.workers[w]) ==>
              WorkerLifecycle.IsBusy(r.workers[w]) && r.workers[w].assignedTask == task
              && r.workers[w].taskTargetInstanceID == Some(plotID)
    ensures r == s.(workers := r.workers)
  {
    s.(workers := s.workers[w := WorkerLifecycle.AssignTask(s.workers[w], task, Some(plotID), cat.settings, now)])
  }

  /** worker.CancelTask() on the worker at position w. */
  function CancelWorker(s: GameState.GameState, w: nat, now: int): (r: GameState.GameState)
    requires w < |s.workers|
    ensures |r.workers| == |s.workers|
    ensures forall j :: 0 <= j < |s.workers| && j != w ==> r.workers[j] == s.workers[j]
    ensures WorkerLifecycle.IsIdle(r.workers[w]) && r == s.(workers := r.workers)
  {
    s.(workers := s.workers[w := WorkerLifecycle.CancelTask(s.workers[w], now)])
  }

  /** Giving an idle worker a task on a plot nobody of that family is on keeps the rule. */
  lemma AssignKeepsNoDoubleAssignment(s: GameState.GameState, w: nat, task: WorkerTask, plotID: int, cat: Catalog, now: int)
    requires w < |s.workers| && WorkerLifecycle.IsIdle(s.workers[w]) && NoDoubleAssignment(s.workers)
    requires task == WorkerTask.Plant || InHarvestFamily(task)
    requires !IsAlreadyAssigned(s.workers, plotID, InHarvestFamily(task))
    ensures NoDoubleAssignment(AssignWorker(s, w, task, plotID, cat, now).workers)
  {
    var ws := AssignWorker(s, w, task, plotID, cat, now).workers;
    forall i, j, p: int, h: bool | 0 <= i < j < |ws| && AssignedTo(ws[i], p, h)
      ensures !AssignedTo(ws[j], p, h)
    {
      if i == w {
        assert p == plotID && h == InHarvestFamily(task);
        assert ws[j] == s.workers[j];
      } else if j == w {
        assert AssignedTo(ws[j], p, h) ==> p == plotID && h == InHarvestFamily(task);
        assert ws[i] == s.workers[i];
      } else {
        assert ws[i] == s.workers[i] && ws[j] == s.workers[j];
      }
    }
  }

  // ------------------------------------------------------------ harvest work

  /** Milk when the plot's first entity is of an animal kind, Harvest otherwise. */
  function HarvestTaskType(s: GameState.GameState, cat: Catalog, plotID: int): (t: WorkerTask)
    ensures InHarvestFamily(t)
  {
    var firstEntity := PlotEntityQueries.GetPlotEntity(s, plotID);
    if firstEntity.Some? && GetEntity(cat, firstEntity.value.entityID).Some?
       && GetEntity(cat, firstEntity.value.entityID).value.entityType == EntityType.Animal
    then WorkerTask.Milk
    else WorkerTask.Harvest
  }

  /** The checks of the harvest scan for one plot. */
  predicate IsHarvestTarget(s: GameState.GameState, plotID: int)
  {
    PlotEntityQueries.PlotHasHarvestableEntities(s, plotID)
    && !IsAlreadyAssigned(s.workers, plotID, true)
    && PlotEntityQueries.GetPlotEntity(s, plotID).Some?
  }

  function HarvestTargetOf(s: GameState.GameState): PlotState.Plot -> bool
  {
    (plot: PlotState.Plot) => IsHarvestTarget(s, plot.plotID)
  }

  /**
   * AssignHarvestTask: the first plot of the save that passes the checks
   * gets the worker, with whatever task its first entity calls for.
   */
  function AssignHarvestTask(s: GameState.GameState, cat: Catalog, w: nat, now: int): (out: (bool, GameState.GameState))
    requires w < |s.workers|
    ensures !out.0 ==> out.1 == s
    ensures |out.1.workers| == |s.workers|
    ensures forall i :: 0 <= i < |s.workers| && i != w ==> out.1.workers[i] == s.workers[i]
  {
    match Seqs.FirstIndex(s.plots, HarvestTargetOf(s))
    case Null => (false, s)
    case Some(k) =>
      var plotID := s.plots[k].plotID;
      (true, AssignWorker(s, w, HarvestTaskType(s, cat, plotID), plotID, cat, now))
  }

  /**
   * The scan succeeds exactly when some plot passes the checks, and then the
   * worker is sent to the first such plot, with whatever task its first entity
   * calls for.
   */
  lemma AssignHarvestTaskTakesFirstTarget(s: GameState.GameState, cat: Catalog, w: nat, now: int)
    requires w < |s.workers|
    ensures var out := AssignHarvestTask(s, cat, w, now);
            (out.0 <==> exists k :: 0 <= k < |s.plots| && IsHarvestTarget(s, s.plots[k].plotID))
            && (out.0 ==> exists k :: 0 <= k < |s.plots| && IsHarvestTarget(s, s.plots[k].plotID)
                                     && (forall j :: 0 <= j < k ==> !IsHarvestTarget(s, s.plots[j].plotID))
                                     && out.1 == AssignWorker(s, w, HarvestTaskType(s, cat, s.plots[k].plotID), s.plots[k].plotID, cat, now))
  {
    var found := Seqs.FirstIndex(s.plots, HarvestTargetOf(s));
    if found.Some? {
      assert IsHarvestTarget(s, s.plots[found.value].plotID);
    }
  }

  // ------------------------------------------------------------ the best item to plant

  /** baseSalePrice * baseYieldAmount * totalYieldsLimit of the product, in 32-bit arithmetic, for an item that grows into a defined kind with a defined product. */
  function ProductValue(cat: Catalog, itemID: ItemID): (v: Nullable<int>)
    ensures v.Some? ==> GetItem(cat, itemID).Some? && GetItem(cat, itemID).value.growsIntoEntityID != EntityID.None
    ensures v.Some? ==> Int32.Min <= v.value <= Int32.Max
  {
    var itemDef := GetItem(cat, itemID);
    if itemDef.Null? || itemDef.value.growsIntoEntityID == EntityID.None then Null
    else
      var entityDef := GetEntity(cat, itemDef.value.growsIntoEntityID);
      if entityDef.Null? then Null
      else
        var productDef := GetItem(cat, entityDef.value.productProducedItemID);
        if productDef.Null? then Null
        else Some(Int32.Mul(Int32.Mul(productDef.value.baseSalePrice, entityDef.value.baseYieldAmount),
                            entityDef.value.totalYieldsLimit))
  }

  /** What the loop weighs an item at: its product value when it is held with a positive count and has one. */
  function Weigh(inv: map<ItemID, int>, cat: Catalog): ItemID -> Nullable<int>
  {
    (itemID: ItemID) => if itemID in inv && inv[itemID] > 0 then ProductValue(cat, itemID) else Null
  }

  /** An inventory entry the loop weighs: a positive count of an item with a product value. */
  predicate IsCandidate(inv: map<ItemID, int>, cat: Catalog, itemID: ItemID)
  {
    itemID in inv && inv[itemID] > 0 && ProductValue(cat, itemID).Some?
  }

  /** The item has a weight, strictly more than the value to beat. */
  predicate Beats(weigh: ItemID -> Nullable<int>, itemID: ItemID, highest: int)
  {
    weigh(itemID).Some? && weigh(itemID).value > highest
  }

  /** The running maximum over the remaining ids: an item replaces the best only with a strictly greater weight. */
  function BestItemFrom(ids: seq<ItemID>, weigh: ItemID -> Nullable<int>, best: ItemID, highest: int): (r: (ItemID, int))
    ensures r.0 == best || weigh(r.0).Some?
    ensures r.1 >= highest
    decreases |ids|
  {
    if |ids| == 0 then (best, highest)
    else if Beats(weigh, ids[0], highest) then BestItemFrom(ids[1..], weigh, ids[0], weigh(ids[0]).value)
    else BestItemFrom(ids[1..], weigh, best, highest)
  }

  /** No weighed item among ids is worth more than v. */
  ghost predicate AtMost(ids: seq<ItemID>, weigh: ItemID -> Nullable<int>, v: int)
  {
    forall m :: 0 <= m < |ids| && weigh(ids[m]).Some? ==> weigh(ids[m]).value <= v
  }

  /** ids[i] is weighed at v and every weighed item before it at less. */
  ghost predicate FirstReaching(ids: seq<ItemID>, weigh: ItemID -> Nullable<int>, i: nat, v: int)
  {
    i < |ids| && weigh(ids[i]) == Some(v)
    && forall m :: 0 <= m < i && weigh(ids[m]).Some? ==> weigh(ids[m]).value < v
  }

  lemma AtMostCons(ids: seq<ItemID>, weigh: ItemID -> Nullable<int>, v: int)
    requires |ids| > 0
    ensures AtMost(ids, weigh, v) <==> (weigh(ids[0]).Some? ==> weigh(ids[0]).value <= v) && AtMost(ids[1..], weigh, v)
  {
    assert forall m :: 0 < m < |ids| ==> ids[m] == ids[1..][m - 1];
  }

  lemma FirstReachingCons(ids: seq<ItemID>, weigh: ItemID -> Nullable<int>, i: nat, v: int)
    requires |ids| > 0 && FirstReaching(ids[1..], weigh, i, v)
    requires weigh(ids[0]).Some? ==> weigh(ids[0]).value < v
    ensures FirstReaching(ids, weigh, i + 1, v) && ids[i + 1] == ids[1..][i]
  {
    assert forall m :: 0 < m < |ids| ==> ids[m] == ids[1..][m - 1];
  }

  /**
   * The running maximum keeps its start when nothing beats the start;
   * otherwise it ends on the first item of greatest weight.
   */
  lemma {:induction false} BestItemFromIsFirstMaximum(ids: seq<ItemID>, weigh: ItemID -> Nullable<int>, best: ItemID, highest: int)
    ensures AtMost(ids, weigh, highest) ==> BestItemFrom(ids, weigh, best, highest) == (best, highest)
    ensures var r := BestItemFrom(ids, weigh, best, highest);
            !AtMost(ids, weigh, highest) ==>
              r.1 > highest && AtMost(ids, weigh, r.1)
              && exists i: nat :: FirstReaching(ids, weigh, i, r.1) && ids[i] == r.0
    decreases |ids|
  {
    if |ids| > 0 {
      var tail := ids[1..];
      AtMostCons(ids, weigh, highest);
      if Beats(weigh, ids[0], highest) {
        var v := weigh(ids[0]).value;
        BestItemFromIsFirstMaximum(tail, weigh, ids[0], v);
        var r := BestItemFrom(tail, weigh, ids[0], v);
        AtMostCons(ids, weigh, r.1);
        if AtMost(tail, weigh, v) {
          assert FirstReaching(ids, weigh, 0, r.1);
        } else {
          var i: nat :| FirstReaching(tail, weigh, i, r.1) && tail[i] == r.0;
          FirstReachingCons(ids, weigh, i, r.1);
        }
      } else {
        BestItemFromIsFirstMaximum(tail, weigh, best, highest);
        var r := BestItemFrom(tail, weigh, best, highest);
        if !AtMost(ids, weigh, highest) {
          AtMostCons(ids, weigh, r.1);
          var i: nat :| FirstReaching(tail, weigh, i, r.1) && tail[i] == r.0;
          FirstReachingCons(ids, weigh, i, r.1);
        }
      }
    }
  }

  /** GetBestItemToPlant: the inventory in enumeration order, a positive weight needed to beat the start. */
  function GetBestItemToPlant(inv: map<ItemID, int>, cat: Catalog): (r: ItemID)
    ensures r == ItemID.None || IsCandidate(inv, cat, r)
  {
    BestItemFrom(AllItemIDs, Weigh(inv, cat), ItemID.None, 0).0
  }

  /** Over the whole enumeration, AtMost speaks of every item. */
  lemma AtMostAllItems(weigh: ItemID -> Nullable<int>, v: int)
    ensures AtMost(AllItemIDs, weigh, v) <==> forall id :: weigh(id).Some? ==> weigh(id).value <= v
  {
    AllItemIDsComplete();
    if AtMost(AllItemIDs, weigh, v) {
      forall id | weigh(id).Some?
        ensures weigh(id).value <= v
      {
        assert id in AllItemIDs;
        var m :| 0 <= m < |AllItemIDs| && AllItemIDs[m] == id;
      }
    }
  }

  /**
   * The result is None when no held item has a positive product value;
   * otherwise it is a held item of greatest value, the first such in
   * ItemID declaration order, which stands for the dictionary's enumeration
   * order (EnumerationOrderOnlyBreaksTies shows that order only breaks ties).
   */
  lemma BestItemIsFirstOfGreatestValue(inv: map<ItemID, int>, cat: Catalog)
    ensures (forall id :: IsCandidate(inv, cat, id) ==> ProductValue(cat, id).value <= 0) ==> GetBestItemToPlant(inv, cat) == ItemID.None
    ensures var r := GetBestItemToPlant(inv, cat);
            (exists id :: IsCandidate(inv, cat, id) && ProductValue(cat, id).value > 0)
            ==> IsCandidate(inv, cat, r) && ProductValue(cat, r).value > 0
                && (forall id :: IsCandidate(inv, cat, id) ==> ProductValue(cat, id).value <= ProductValue(cat, r).value)
                && exists i: nat :: FirstReaching(AllItemIDs, Weigh(inv, cat), i, ProductValue(cat, r).value) && AllItemIDs[i] == r
  {
    var weigh := Weigh(inv, cat);
    assert forall id :: IsCandidate(inv, cat, id) <==> weigh(id).Some?;
    assert forall id :: IsCandidate(inv, cat, id) ==> weigh(id) == ProductValue(cat, id);
    BestItemFromIsFirstMaximum(AllItemIDs, weigh, ItemID.None, 0);
    var r := BestItemFrom(AllItemIDs, weigh, ItemID.None, 0);
    AtMostAllItems(weigh, 0);
    AtMostAllItems(weigh, r.1);
  }

  /** Over any listing that holds every weighed item, AtMost speaks of every item. */
  lemma AtMostCovering(ids: seq<ItemID>, weigh: ItemID -> Nullable<int>, v: int)
    requires forall id :: weigh(id).Some? ==> id in ids
    ensures AtMost(ids, weigh, v) <==> forall id :: weigh(id).Some? ==> weigh(id).value <= v
  {
    if AtMost(ids, weigh, v) {
      forall id | weigh(id).Some?
        ensures weigh(id).value <= v
      {
        var m :| 0 <= m < |ids| && ids[m] == id;
      }
    }
  }

  /**
   * The dictionary's enumeration order only breaks ties. Run over any
   * listing that holds every held key, the loop reaches the same greatest
   * value as over the declaration order, returns None in the same cases,
   * and returns the same item whenever one candidate alone has that value.
   */
  lemma EnumerationOrderOnlyBreaksTies(inv: map<ItemID, int>, cat: Catalog, order: seq<ItemID>)
    requires forall id :: id in inv ==> id in order
    ensures var r := BestItemFrom(order, Weigh(inv, cat), ItemID.None, 0);
            var g := BestItemFrom(AllItemIDs, Weigh(inv, cat), ItemID.None, 0);
            g.0 == GetBestItemToPlant(inv, cat)
            && r.1 == g.1
            && (r.1 == 0 ==> r.0 == ItemID.None && g.0 == ItemID.None)
            && (r.1 > 0 ==> IsCandidate(inv, cat, r.0) && ProductValue(cat, r.0) == Some(r.1))
            && ((forall a, b ::
                   (IsCandidate(inv, cat, a) && IsCandidate(inv, cat, b) && ProductValue(cat, a) == Some(r.1) && ProductValue(cat, b) == Some(r.1))
                   ==> a == b)
                ==> r.0 == g.0)
  {
    var weigh := Weigh(inv, cat);
    assert forall id :: weigh(id).Some? <==> IsCandidate(inv, cat, id);
    assert forall id :: weigh(id).Some? ==> weigh(id) == ProductValue(cat, id);
    AllItemIDsComplete();
    BestItemFromIsFirstMaximum(order, weigh, ItemID.None, 0);
    BestItemFromIsFirstMaximum(AllItemIDs, weigh, ItemID.None, 0);
    var r := BestItemFrom(order, weigh, ItemID.None, 0);
    var g := BestItemFrom(AllItemIDs, weigh, ItemID.None, 0);
    AtMostCovering(order, weigh, 0);
    AtMostCovering(AllItemIDs, weigh, 0);
    if !AtMost(order, weigh, 0) {
      AtMostCovering(order, weigh, r.1);
      AtMostCovering(AllItemIDs, weigh, g.1);
      var i: nat :| FirstReaching(order, weigh, i, r.1) && order[i] == r.0;
      var j: nat :| FirstReaching(AllItemIDs, weigh, j, g.1) && AllItemIDs[j] == g.0;
      assert weigh(r.0) == Some(r.1) && weigh(g.0) == Some(g.1);
    }
  }

  // ------------------------------------------------------------ planting work

  /**
   * The checks of the plant scan for one plot of the save, the guard being
   * the C# CanPlantOnPlot, which must answer true.
   */
  predicate IsPlantTarget(s: GameState.GameState, cache: PlotCache.PlotCache, cat: Catalog, plot: PlotState.Plot)
  {
    var item := GetBestItemToPlant(s.player.inventory, cat);
    PlotState.IsEmpty(plot) && !IsAlreadyAssigned(s.workers, plot.plotID, false)
    && item != ItemID.None && PlotPlantingModel.CanPlantOnPlot(s, cache, cat, plot.plotID, item) == PlotPlantingModel.Returns(true)
  }

  /** The position of the first plot of the save that passes the checks of the plant scan, if any. */
  function PlantTarget(s: GameState.GameState, cache: PlotCache.PlotCache, cat: Catalog): (r: Nullable<nat>)
    ensures r.Null? <==> forall k :: 0 <= k < |s.plots| ==> !IsPlantTarget(s, cache, cat, s.plots[k])
    ensures r.Some? ==> r.value < |s.plots| && IsPlantTarget(s, cache, cat, s.plots[r.value])
                        && forall j :: 0 <= j < r.value ==> !IsPlantTarget(s, cache, cat, s.plots[j])
  {
    Seqs.FirstIndex(s.plots, PlantTargetOf(s, cache, cat))
  }

  function PlantTargetOf(s: GameState.GameState, cache: PlotCache.PlotCache, cat: Catalog): PlotState.Plot -> bool
  {
    (plot: PlotState.Plot) => IsPlantTarget(s, cache, cat, plot)
  }

  /** The worker is given the Plant task on the plot and the best item is planted there. */
  function PlantOn(s: GameState.GameState, cache: PlotCache.PlotCache, cat: Catalog, guid: nat -> string,
                   w: nat, plotID: int, now: int): (out: (PlotPlantingModel.PlantingResult, GameState.GameState))
    requires w < |s.workers|
    ensures out.1.workers == AssignWorker(s, w, WorkerTask.Plant, plotID, cat, now).workers
  {
    PlotPlantingModel.PlantItemOnPlot(AssignWorker(s, w, WorkerTask.Plant, plotID, cat, now), cache, cat, guid,
                                      plotID, GetBestItemToPlant(s.player.inventory, cat), now)
  }

  /**
   * AssignPlantTask: the first plot of the save that passes the checks gets
   * the worker on the Plant task, and the best item is planted there.
   */
  function AssignPlantTask(s: GameState.GameState, cache: PlotCache.PlotCache, cat: Catalog, guid: nat -> string,
                           w: nat, now: int): (out: (bool, GameState.GameState))
    requires w < |s.workers|
    ensures !out.0 ==> out.1 == s
    ensures |out.1.workers| == |s.workers|
    ensures forall i :: 0 <= i < |s.workers| && i != w ==> out.1.workers[i] == s.workers[i]
    ensures out.0 <==> PlantTarget(s, cache, cat).Some?
    ensures out.0 ==>
              out.1.workers == AssignWorker(s, w, WorkerTask.Plant, s.plots[PlantTarget(s, cache, cat).value].plotID, cat, now).workers
  {
    match PlantTarget(s, cache, cat)
    case Null => (false, s)
    case Some(k) => (true, PlantOn(s, cache, cat, guid, w, s.plots[k].plotID, now).1)
  }

  /** The best item always has a definition, so the guard of the plant scan never dereferences null. */
  lemma PlantGuardNeverThrows(s: GameState.GameState, cache: PlotCache.PlotCache, cat: Catalog, plotID: int)
    requires GetBestItemToPlant(s.player.inventory, cat) != ItemID.None
    ensures var item := GetBestItemToPlant(s.player.inventory, cat);
            PlotPlantingModel.CanPlantOnPlot(s, cache, cat, plotID, item)
            == PlotPlantingModel.Returns(PlotPlantingModel.CanPlantOnPlotChecked(s, cache, cat, plotID, item))
  {
    PlotPlantingModel.CanPlantAnswersForKnownItems(s, cache, cat, plotID, GetBestItemToPlant(s.player.inventory, cat));
  }

  /**
   * On a plot that passes the checks the planting succeeds, so the scan's
   * revert after a failed planting (CancelTask) is never reached.
   */
  lemma PlantingOnTargetSucceeds(s: GameState.GameState, cache: PlotCache.PlotCache, cat: Catalog, guid: nat -> string,
                                 w: nat, plot: PlotState.Plot, now: int)
    requires w < |s.workers| && IsPlantTarget(s, cache, cat, plot)
    ensures PlantOn(s, cache, cat, guid, w, plot.plotID, now).0.success
  {
    var item := GetBestItemToPlant(s.player.inventory, cat);
    var tasked := AssignWorker(s, w, WorkerTask.Plant, plot.plotID, cat, now);
    PlantGuardNeverThrows(s, cache, cat, plot.plotID);
    assert PlotPlantingModel.CanPlantOnPlotChecked(s, cache, cat, plot.plotID, item);
    assert tasked.plots == s.plots && tasked.player == s.player;
    assert PlotPlantingModel.CanPlantOnPlotChecked(tasked, cache, cat, plot.plotID, item);
    PlotPlantingModel.CanPlantIffPlantingSucceeds(tasked, cache, cat, guid, plot.plotID, item, now);
  }

  // ------------------------------------------------------------ the two passes

  /** The priority a pass works at: harvest work or plant work. */
  function TryAssign(s: GameState.GameState, cache: PlotCache.PlotCache, cat: Catalog, guid: nat -> string,
                     w: nat, harvest: bool, now: int): (out: (bool, GameState.GameState))
    requires w < |s.workers|
    ensures |out.1.workers| == |s.workers|
    ensures forall i :: 0 <= i < |s.workers| && i != w ==> out.1.workers[i] == s.workers[i]
  {
    if harvest then AssignHarvestTask(s, cat, w, now) else AssignPlantTask(s, cache, cat, guid, w, now)
  }

  /** A harvest attempt on an idle worker keeps the rule and, when it succeeds, leaves the worker on harvest work. */
  lemma HarvestAttemptKeepsRule(s: GameState.GameState, cat: Catalog, w: nat, now: int)
    requires w < |s.workers| && WorkerLifecycle.IsIdle(s.workers[w])
    ensures var out := AssignHarvestTask(s, cat, w, now);
            out.0 ==> WorkerLifecycle.IsBusy(out.1.workers[w]) && InHarvestFamily(out.1.workers[w].assignedTask)
    ensures NoDoubleAssignment(s.workers) ==> NoDoubleAssignment(AssignHarvestTask(s, cat, w, now).1.workers)
  {
    var out := AssignHarvestTask(s, cat, w, now);
    AssignHarvestTaskTakesFirstTarget(s, cat, w, now);
    if out.0 {
      var k :| 0 <= k < |s.plots| && IsHarvestTarget(s, s.plots[k].plotID)
                && (forall j :: 0 <= j < k ==> !IsHarvestTarget(s, s.plots[j].plotID))
                && out.1 == AssignWorker(s, w, HarvestTaskType(s, cat, s.plots[k].plotID), s.plots[k].plotID, cat, now);
      if NoDoubleAssignment(s.workers) {
        AssignKeepsNoDoubleAssignment(s, w, HarvestTaskType(s, cat, s.plots[k].plotID), s.plots[k].plotID, cat, now);
      }
    }
  }

  /** The plot the plant scan picks has no worker on plant work. */
  lemma PlantTargetIsFree(s: GameState.GameState, cache: PlotCache.PlotCache, cat: Catalog)
    ensures var found := PlantTarget(s, cache, cat);
            found.Some? ==> !IsAlreadyAssigned(s.workers, s.plots[found.value].plotID, false)
  {
  }

  /**
   * Any outcome shaped like a plant attempt's (unchanged on failure, the
   * worker put on Plant at a plot nobody plants on when it succeeds) keeps
   * the rule and leaves the worker planting.
   */
  lemma PlantOutcomeKeepsRule(s: GameState.GameState, cat: Catalog, w: nat, plotID: int, now: int,
                              out: (bool, GameState.GameState))
    requires w < |s.workers| && WorkerLifecycle.IsIdle(s.workers[w])
    requires !out.0 ==> out.1 == s
    requires out.0 ==> !IsAlreadyAssigned(s.workers, plotID, false)
                       && out.1.workers == AssignWorker(s, w, WorkerTask.Plant, plotID, cat, now).workers
    ensures out.0 ==> WorkerLifecycle.IsBusy(out.1.workers[w]) && out.1.workers[w].assignedTask == WorkerTask.Plant
    ensures NoDoubleAssignment(s.workers) ==> NoDoubleAssignment(out.1.workers)
  {
    if out.0 && NoDoubleAssignment(s.workers) {
      AssignKeepsNoDoubleAssignment(s, w, WorkerTask.Plant, plotID, cat, now);
    }
  }

  /** A plant attempt on an idle worker keeps the rule and, when it succeeds, leaves the worker planting. */
  lemma PlantAttemptKeepsRule(s: GameState.GameState, cache: PlotCache.PlotCache, cat: Catalog, guid: nat -> string, w: nat, now: int)
    requires w < |s.workers| && WorkerLifecycle.IsIdle(s.workers[w])
    ensures var out := AssignPlantTask(s, cache, cat, guid, w, now);
            out.0 ==> WorkerLifecycle.IsBusy(out.1.workers[w]) && out.1.workers[w].assignedTask == WorkerTask.Plant
    ensures NoDoubleAssignment(s.workers) ==> NoDoubleAssignment(AssignPlantTask(s, cache, cat, guid, w, now).1.workers)
  {
    var found := PlantTarget(s, cache, cat);
    var plotID := if found.Some? then s.plots[found.value].plotID else 0;
    PlantTargetIsFree(s, cache, cat);
    PlantOutcomeKeepsRule(s, cat, w, plotID, now, AssignPlantTask(s, cache, cat, guid, w, now));
  }

  /**
   * An attempt on an idle worker leaves the save as it was when it fails,
   * keeps the one-worker rule, and on success leaves the worker busy with a
   * task of the pass's family.
   */
  lemma TryAssignKeepsRule(s: GameState.GameState, cache: PlotCache.PlotCache, cat: Catalog, guid: nat -> string,
                           w: nat, harvest: bool, now: int)
    requires w < |s.workers| && WorkerLifecycle.IsIdle(s.workers[w])
    ensures var out := TryAssign(s, cache, cat, guid, w, harvest, now);
            (!out.0 ==> out.1 == s)
            && (out.0 ==> WorkerLifecycle.IsBusy(out.1.workers[w])
                          && (harvest <==> InHarvestFamily(out.1.workers[w].assignedTask)))
    ensures NoDoubleAssignment(s.workers) ==> NoDoubleAssignment(TryAssign(s, cache, cat, guid, w, harvest, now).1.workers)
  {
    if harvest {
      HarvestAttemptKeepsRule(s, cat, w, now);
    } else {
      PlantAttemptKeepsRule(s, cache, cat, guid, w, now);
    }
  }

  predicate Distinct(xs: seq<nat>)
  {
    forall a, b :: 0 <= a < b < |xs| ==> xs[a] != xs[b]
  }

  /** List.Remove: drop the first occurrence. */
  function RemoveValue(xs: seq<nat>, x: nat): (r: seq<nat>)
    ensures forall y :: y in r ==> y in xs
    ensures forall y :: y != x && y in xs ==> y in r
    ensures Distinct(xs) ==> Distinct(r) && x !in r
    ensures |r| == if x in xs then |xs| - 1 else |xs|
  {
    if |xs| == 0 then []
    else if xs[0] == x then
      assert Distinct(xs) ==> x !in xs[1..];
      xs[1..]
    else
      var rest := RemoveValue(xs[1..], x);
      assert Distinct(xs) ==> Distinct(xs[1..]) && xs[0] !in rest;
      assert forall b :: 0 < b < |rest| + 1 ==> ([xs[0]] + rest)[b] == rest[b - 1];
      [xs[0]] + rest
  }

  /** An offer of work to one worker of a save: whether it took a task, and the save after. */
  type Attempt = (GameState.GameState, nat) -> (bool, GameState.GameState)

  /** The answer to an offer at a priority; a position past the list takes nothing. */
  function OfferResult(t: GameState.GameState, cache: PlotCache.PlotCache, cat: Catalog, guid: nat -> string,
                       v: nat, harvest: bool, now: int): (bool, GameState.GameState)
  {
    if v < |t.workers| then TryAssign(t, cache, cat, guid, v, harvest, now) else (false, t)
  }

  /** The offer a foreach of AssignWorkerTasks makes at its priority. */
  function Offer(cache: PlotCache.PlotCache, cat: Catalog, guid: nat -> string, harvest: bool, now: int): Attempt
  {
    (t: GameState.GameState, v: nat) => OfferResult(t, cache, cat, guid, v, harvest, now)
  }

  /**
   * The attempt answers every offer as OfferResult does. A caller holding
   * such an attempt reasons about the answers it has asked for and no other.
   */
  ghost predicate Implements(attempt: Attempt, cache: PlotCache.PlotCache, cat: Catalog, guid: nat -> string,
                             harvest: bool, now: int)
  {
    forall t: GameState.GameState, v: nat {:trigger OfferResult(t, cache, cat, guid, v, harvest, now)} ::
      attempt(t, v) == OfferResult(t, cache, cat, guid, v, harvest, now)
  }

  lemma OfferImplements(cache: PlotCache.PlotCache, cat: Catalog, guid: nat -> string, harvest: bool, now: int)
    ensures Implements(Offer(cache, cat, guid, harvest, now), cache, cat, guid, harvest, now)
  {
  }

  /**
   * What a pass relies on about an offer to worker v: no other worker changes,
   * and for an idle worker a refusal changes nothing, an acceptance leaves it
   * busy, and the one-worker rule is kept.
   */
  ghost predicate SoundOn(attempt: Attempt, t: GameState.GameState, v: nat)
  {
    var out := attempt(t, v);
    |out.1.workers| == |t.workers|
    && (forall i :: 0 <= i < |t.workers| && i != v ==> out.1.workers[i] == t.workers[i])
    && (v < |t.workers| && WorkerLifecycle.IsIdle(t.workers[v]) ==>
          (!out.0 ==> out.1 == t)
          && (out.0 ==> WorkerLifecycle.IsBusy(out.1.workers[v]))
          && (NoDoubleAssignment(t.workers) ==> NoDoubleAssignment(out.1.workers)))
  }

  ghost predicate SoundAttempt(attempt: Attempt)
  {
    forall t: GameState.GameState, v: nat :: SoundOn(attempt, t, v)
  }

  /** Both offers AssignWorkerTasks makes are sound. */
  lemma OfferIsSound(cache: PlotCache.PlotCache, cat: Catalog, guid: nat -> string, harvest: bool, now: int)
    ensures SoundAttempt(Offer(cache, cat, guid, harvest, now))
  {
    forall t: GameState.GameState, v: nat
      ensures SoundOn(Offer(cache, cat, guid, harvest, now), t, v)
    {
      if v < |t.workers| && WorkerLifecycle.IsIdle(t.workers[v]) {
        TryAssignKeepsRule(t, cache, cat, guid, v, harvest, now);
      }
    }
  }

  /**
   * One foreach of AssignWorkerTasks over the snapshot todo: each worker is
   * made the offer; a worker that takes it leaves the idle list, the busy
   * count is resynced, and the pass stops once the idle list is empty. The
   * result is the save and the idle list after.
   */
  function AssignPass(s: GameState.GameState, attempt: Attempt, todo: seq<nat>, idle: seq<nat>): (r: (GameState.GameState, seq<nat>))
    ensures forall x :: x in r.1 ==> x in idle
    ensures Distinct(idle) ==> Distinct(r.1)
    decreases |todo|
  {
    if |todo| == 0 then (s, idle)
    else
      var out := attempt(s, todo[0]);
      if out.0 then
        var left := RemoveValue(idle, todo[0]);
        var synced := GameState.SyncBusyWorkers(out.1);
        if |left| == 0 then (synced, left)
        else AssignPass(synced, attempt, todo[1..], left)
      else AssignPass(out.1, attempt, todo[1..], idle)
  }

  /** One unrolling of a pass once the offer to its head worker is known. */
  lemma AssignPassUnrolls(s: GameState.GameState, attempt: Attempt, todo: seq<nat>, idle: seq<nat>,
                          taken: bool, after: GameState.GameState)
    requires |todo| > 0 && (taken, after) == attempt(s, todo[0])
    ensures !taken ==> AssignPass(s, attempt, todo, idle) == AssignPass(after, attempt, todo[1..], idle)
    ensures taken && |RemoveValue(idle, todo[0])| == 0 ==>
              AssignPass(s, attempt, todo, idle) == (GameState.SyncBusyWorkers(after), RemoveValue(idle, todo[0]))
    ensures taken && |RemoveValue(idle, todo[0])| > 0 ==>
              AssignPass(s, attempt, todo, idle)
              == AssignPass(GameState.SyncBusyWorkers(after), attempt, todo[1..], RemoveValue(idle, todo[0]))
  {
  }

  /** A pass keeps the worker list's length and touches only the workers of its snapshot. */
  lemma {:induction false} AssignPassTouchesOnlyTodo(s: GameState.GameState, attempt: Attempt, todo: seq<nat>, idle: seq<nat>)
    requires SoundAttempt(attempt)
    ensures |AssignPass(s, attempt, todo, idle).0.workers| == |s.workers|
    ensures forall j :: 0 <= j < |s.workers| && j !in todo ==> AssignPass(s, attempt, todo, idle).0.workers[j] == s.workers[j]
    decreases |todo|
  {
    if |todo| > 0 {
      var w := todo[0];
      var out := attempt(s, w);
      assert SoundOn(attempt, s, w);
      assert forall j :: j !in todo ==> j !in todo[1..] && j != w;
      if out.0 {
        var left := RemoveValue(idle, w);
        if |left| > 0 {
          AssignPassTouchesOnlyTodo(GameState.SyncBusyWorkers(out.1), attempt, todo[1..], left);
        }
      } else {
        AssignPassTouchesOnlyTodo(out.1, attempt, todo[1..], idle);
      }
    }
  }

  /** The positions of the idle workers, in list order: gameData.GetIdleWorkers(). */
  function IdleIndices(s: GameState.GameState): (r: seq<nat>)
    ensures forall x: nat :: x in r <==> x < |s.workers| && WorkerLifecycle.IsIdle(s.workers[x])
    ensures Distinct(r)
  {
    Seqs.Indices(s.workers, WorkerLifecycle.IsIdle, |s.workers|)
  }

  /** AssignWorkerTasks: with game data and an idle worker, the harvest pass, then the plant pass over the workers it left idle. */
  function AssignWorkerTasks(game: Nullable<GameState.GameState>, cache: PlotCache.PlotCache, cat: Catalog,
                             guid: nat -> string, now: int): (r: Nullable<GameState.GameState>)
    ensures game.Null? <==> r.Null?
    ensures game.Some? && |IdleIndices(game.value)| == 0 ==> r == game
  {
    match game
    case Null => Null
    case Some(s) =>
      var idle := IdleIndices(s);
      if |idle| == 0 then game
      else
        var afterHarvest := AssignPass(s, Offer(cache, cat, guid, true, now), idle, idle);
        var afterPlant := AssignPass(afterHarvest.0, Offer(cache, cat, guid, false, now), afterHarvest.1, afterHarvest.1);
        Some(afterPlant.0)
  }

  /** What a pass starts from: distinct idle workers, the snapshot drawn from the idle list. */
  ghost predicate PassReady(s: GameState.GameState, todo: seq<nat>, idle: seq<nat>)
  {
    Distinct(todo) && Distinct(idle) && (forall x :: x in todo ==> x in idle)
    && forall x :: x in idle ==> x < |s.workers| && WorkerLifecycle.IsIdle(s.workers[x])
  }

  /** One step of a pass from a ready start: the offer to the head worker, and a ready start for the rest. */
  lemma PassStep(s: GameState.GameState, attempt: Attempt, todo: seq<nat>, idle: seq<nat>)
    requires SoundAttempt(attempt) && PassReady(s, todo, idle) && |todo| > 0
    ensures todo[0] < |s.workers| && |attempt(s, todo[0]).1.workers| == |s.workers|
    ensures var out := attempt(s, todo[0]);
            (!out.0 ==> out.1 == s && PassReady(s, todo[1..], idle))
            && (out.0 ==> PassReady(GameState.SyncBusyWorkers(out.1), todo[1..], RemoveValue(idle, todo[0]))
                          && WorkerLifecycle.IsBusy(out.1.workers[todo[0]]))
            && (NoDoubleAssignment(s.workers) ==> NoDoubleAssignment(out.1.workers))
    ensures forall x :: x in todo[1..] ==> x in todo && x != todo[0]
  {
    var w := todo[0];
    assert w in todo;
    assert forall x :: x in todo[1..] ==> x in todo && x != todo[0] by {
      forall x | x in todo[1..]
        ensures x in todo && x != todo[0]
      {
        var b :| 0 <= b < |todo[1..]| && todo[1..][b] == x;
        assert todo[b + 1] == x;
      }
    }
    assert Distinct(todo[1..]);
    assert SoundOn(attempt, s, w);
  }

  /** A pass with a sound offer from a ready start keeps the one-worker rule. */
  lemma {:induction false} AssignPassKeepsNoDoubleAssignment(s: GameState.GameState, attempt: Attempt, todo: seq<nat>, idle: seq<nat>)
    requires SoundAttempt(attempt) && PassReady(s, todo, idle) && NoDoubleAssignment(s.workers)
    ensures NoDoubleAssignment(AssignPass(s, attempt, todo, idle).0.workers)
    decreases |todo|
  {
    if |todo| > 0 {
      PassStep(s, attempt, todo, idle);
      var out := attempt(s, todo[0]);
      if out.0 {
        var left := RemoveValue(idle, todo[0]);
        if |left| > 0 {
          AssignPassKeepsNoDoubleAssignment(GameState.SyncBusyWorkers(out.1), attempt, todo[1..], left);
        }
      } else {
        AssignPassKeepsNoDoubleAssignment(s, attempt, todo[1..], idle);
      }
    }
  }

  /**
   * The idle list a pass with a sound offer leaves holds exactly the workers
   * of the list it was given that are still idle; and unless the pass changed
   * nothing, the busy count agrees with the worker list afterwards.
   */
  lemma {:induction false} AssignPassLeavesIdleList(s: GameState.GameState, attempt: Attempt, todo: seq<nat>, idle: seq<nat>)
    requires SoundAttempt(attempt) && PassReady(s, todo, idle)
    ensures var r := AssignPass(s, attempt, todo, idle);
            |r.0.workers| == |s.workers|
            && (forall x :: x in r.1 <==> x in idle && WorkerLifecycle.IsIdle(r.0.workers[x]))
            && (r.0 == s || GameState.BusyCountSynced(r.0))
    decreases |todo|
  {
    AssignPassTouchesOnlyTodo(s, attempt, todo, idle);
    if |todo| > 0 {
      var w := todo[0];
      PassStep(s, attempt, todo, idle);
      var out := attempt(s, w);
      if out.0 {
        var left := RemoveValue(idle, w);
        var synced := GameState.SyncBusyWorkers(out.1);
        if |left| == 0 {
          assert forall x :: x in idle ==> x == w;
        } else {
          AssignPassLeavesIdleList(synced, attempt, todo[1..], left);
          AssignPassTouchesOnlyTodo(synced, attempt, todo[1..], left);
          assert w !in todo[1..];
        }
      } else {
        AssignPassLeavesIdleList(s, attempt, todo[1..], idle);
      }
    }
  }

  /**
   * The whole assignment keeps the one-worker rule, never touches a busy
   * worker, leaves the busy count in agreement with the worker list whenever
   * it changed anything, and the plant pass is offered exactly the workers
   * the harvest pass left idle.
   */
  lemma AssignWorkerTasksKeepsRule(s: GameState.GameState, cache: PlotCache.PlotCache, cat: Catalog, guid: nat -> string, now: int)
    ensures var r := AssignWorkerTasks(Some(s), cache, cat, guid, now).value;
            (NoDoubleAssignment(s.workers) ==> NoDoubleAssignment(r.workers))
            && |r.workers| == |s.workers|
            && (forall j :: 0 <= j < |s.workers| && WorkerLifecycle.IsBusy(s.workers[j]) ==> r.workers[j] == s.workers[j])
            && (r == s || GameState.BusyCountSynced(r))
  {
    var idle := IdleIndices(s);
    if |idle| > 0 {
      var harvestOffer := Offer(cache, cat, guid, true, now);
      var plantOffer := Offer(cache, cat, guid, false, now);
      OfferIsSound(cache, cat, guid, true, now);
      OfferIsSound(cache, cat, guid, false, now);
      assert PassReady(s, idle, idle);
      AssignPassLeavesIdleList(s, harvestOffer, idle, idle);
      var h := AssignPass(s, harvestOffer, idle, idle);
      assert PassReady(h.0, h.1, h.1);
      AssignPassLeavesIdleList(h.0, plantOffer, h.1, h.1);
      if NoDoubleAssignment(s.workers) {
        AssignPassKeepsNoDoubleAssignment(s, harvestOffer, idle, idle);
        AssignPassKeepsNoDoubleAssignment(h.0, plantOffer, h.1, h.1);
      }
      var p := AssignPass(h.0, plantOffer, h.1, h.1);
      AssignPassTouchesOnlyTodo(s, harvestOffer, idle, idle);
      AssignPassTouchesOnlyTodo(h.0, plantOffer, h.1, h.1);
      forall j | 0 <= j < |s.workers| && WorkerLifecycle.IsBusy(s.workers[j])
        ensures p.0.workers[j] == s.workers[j]
      {
        assert j !in idle;
        assert j !in h.1;
      }
    }
  }

  // ------------------------------------------------------------ manual assignment

  /**
   * AssignWorkerToHarvestPlot: the first idle worker is sent to a plot with
   * collectable products, without the one-worker check; the busy count is
   * resynced.
   */
  function AssignWorkerToHarvestPlot(game: Nullable<GameState.GameState>, cat: Catalog, plotID: int, now: int)
    : (out: (bool, Nullable<GameState.GameState>))
    ensures out.0 <==> game.Some? && (exists j :: 0 <= j < |game.value.workers| && WorkerLifecycle.IsIdle(game.value.workers[j]))
                       && PlotEntityQueries.PlotHasHarvestableEntities(game.value, plotID)
    ensures !out.0 ==> out.1 == game
  {
    if game.Null? then (false, game)
    else
      var s := game.value;
      var worker := Seqs.FirstIndex(s.workers, WorkerLifecycle.IsIdle);
      if worker.Null? || !PlotEntityQueries.PlotHasHarvestableEntities(s, plotID) then (false, game)
      else if PlotEntityQueries.GetPlotEntity(s, plotID).Some? then
        (true, Some(GameState.SyncBusyWorkers(AssignWorker(s, worker.value, HarvestTaskType(s, cat, plotID), plotID, cat, now))))
      else (false, game)
  }

  /** The manual harvest gives the first idle worker that task and nobody else changes. */
  lemma ManualHarvestAssignsFirstIdle(s: GameState.GameState, cat: Catalog, plotID: int, now: int, w: nat)
    requires w < |s.workers| && WorkerLifecycle.IsIdle(s.workers[w])
    requires forall j :: 0 <= j < w ==> !WorkerLifecycle.IsIdle(s.workers[j])
    requires PlotEntityQueries.PlotHasHarvestableEntities(s, plotID)
    ensures var out := AssignWorkerToHarvestPlot(Some(s), cat, plotID, now);
            out.0 && out.1.Some?
            && AssignedTo(out.1.value.workers[w], plotID, true)
            && (forall j :: 0 <= j < |s.workers| && j != w ==> out.1.value.workers[j] == s.workers[j])
            && GameState.BusyCountSynced(out.1.value)
  {
    ManualHarvestTakesFirstIdle(s, cat, plotID, now, w);
  }

  /** With something to harvest, the manual harvest is the harvest task for the first idle worker, then a resync. */
  lemma ManualHarvestTakesFirstIdle(s: GameState.GameState, cat: Catalog, plotID: int, now: int, w: nat)
    requires w < |s.workers| && WorkerLifecycle.IsIdle(s.workers[w])
    requires forall j :: 0 <= j < w ==> !WorkerLifecycle.IsIdle(s.workers[j])
    requires PlotEntityQueries.PlotHasHarvestableEntities(s, plotID)
    ensures AssignWorkerToHarvestPlot(Some(s), cat, plotID, now)
            == (true, Some(GameState.SyncBusyWorkers(AssignWorker(s, w, HarvestTaskType(s, cat, plotID), plotID, cat, now))))
  {
    var j :| 0 <= j < |s.entities| && s.entities[j].associatedPlotID == plotID && PlotEntityQueries.IsHarvestable(s.entities[j]);
    assert PlotEntityQueries.GetPlotEntity(s, plotID).Some?;
    var first := Seqs.FirstIndex(s.workers, WorkerLifecycle.IsIdle);
    assert first.Some? && first.value == w;
  }

  /**
   * Since the manual harvest skips the check the automatic scan makes, a
   * second worker can land on a plot that already has one.
   */
  lemma ManualHarvestCanDoubleAssign(s: GameState.GameState, cat: Catalog, plotID: int, now: int, w: nat)
    requires w < |s.workers| && WorkerLifecycle.IsIdle(s.workers[w])
    requires forall j :: 0 <= j < w ==> !WorkerLifecycle.IsIdle(s.workers[j])
    requires PlotEntityQueries.PlotHasHarvestableEntities(s, plotID)
    requires IsAlreadyAssigned(s.workers, plotID, true)
    ensures !NoDoubleAssignment(AssignWorkerToHarvestPlot(Some(s), cat, plotID, now).1.value.workers)
  {
    ManualHarvestAssignsFirstIdle(s, cat, plotID, now, w);
    var ws := AssignWorkerToHarvestPlot(Some(s), cat, plotID, now).1.value.workers;
    var o :| 0 <= o < |s.workers| && AssignedTo(s.workers[o], plotID, true);
    assert o != w;
    assert ws[o] == s.workers[o];
    if o < w {
      assert AssignedTo(ws[o], plotID, true) && AssignedTo(ws[w], plotID, true);
    } else {
      assert AssignedTo(ws[w], plotID, true) && AssignedTo(ws[o], plotID, true);
    }
  }

  /**
   * AssignWorkerToPlant: with an idle worker, the C# CanPlantOnPlot guard
   * (which throws on an unknown item), then the Plant task, a resync, the
   * planting, and on failure the cancel and another resync.
   */
  function AssignWorkerToPlant(game: Nullable<GameState.GameState>, cache: PlotCache.PlotCache, cat: Catalog,
                               guid: nat -> string, plotID: int, itemID: ItemID, now: int)
    : (out: (PlotPlantingModel.Outcome, Nullable<GameState.GameState>))
    ensures game.Null? ==> out == (PlotPlantingModel.Returns(false), game)
    ensures out.0.ThrowsNullReference? ==> out.1 == game
  {
    if game.Null? then (PlotPlantingModel.Returns(false), game)
    else
      var s := game.value;
      var worker := Seqs.FirstIndex(s.workers, WorkerLifecycle.IsIdle);
      if worker.Null? then (PlotPlantingModel.Returns(false), game)
      else
        var planted := GuardedPlant(s, cache, cat, guid, worker.value, plotID, itemID, now);
        (planted.0, Some(planted.1))
  }

  /** The CanPlantOnPlot guard, then the planting with worker w when it answers true. */
  function GuardedPlant(s: GameState.GameState, cache: PlotCache.PlotCache, cat: Catalog, guid: nat -> string,
                        w: nat, plotID: int, itemID: ItemID, now: int): (out: (PlotPlantingModel.Outcome, GameState.GameState))
    requires w < |s.workers|
  {
    var guard := PlotPlantingModel.CanPlantOnPlot(s, cache, cat, plotID, itemID);
    if guard.ThrowsNullReference? then (guard, s)
    else if !guard.value then (PlotPlantingModel.Returns(false), s)
    else PlantWithWorker(s, cache, cat, guid, w, plotID, itemID, now)
  }

  /** The Plant task for worker w, a resync, the planting, and on failure the cancel and another resync. */
  function PlantWithWorker(s: GameState.GameState, cache: PlotCache.PlotCache, cat: Catalog, guid: nat -> string,
                           w: nat, plotID: int, itemID: ItemID, now: int): (out: (PlotPlantingModel.Outcome, GameState.GameState))
    requires w < |s.workers|
  {
    var tasked := GameState.SyncBusyWorkers(AssignWorker(s, w, WorkerTask.Plant, plotID, cat, now));
    var planted := PlotPlantingModel.PlantItemOnPlot(tasked, cache, cat, guid, plotID, itemID, now);
    if planted.0.success then (PlotPlantingModel.Returns(true), planted.1)
    else (PlotPlantingModel.Returns(false), GameState.SyncBusyWorkers(CancelWorker(planted.1, w, now)))
  }

  /**
   * The manual planting succeeds exactly when there is an idle worker and the
   * intended guard holds; it throws exactly for an unknown item on an empty
   * cached plot; otherwise it changes nothing, the revert being unreachable.
   */
  lemma ManualPlantAnswersTheGuard(s: GameState.GameState, cache: PlotCache.PlotCache, cat: Catalog,
                                   guid: nat -> string, plotID: int, itemID: ItemID, now: int)
    ensures var out := AssignWorkerToPlant(Some(s), cache, cat, guid, plotID, itemID, now);
            var hasIdle := exists j :: 0 <= j < |s.workers| && WorkerLifecycle.IsIdle(s.workers[j]);
            (out.0 == PlotPlantingModel.Returns(true) <==> hasIdle && PlotPlantingModel.CanPlantOnPlotChecked(s, cache, cat, plotID, itemID))
            && (out.0.ThrowsNullReference? <==> hasIdle && PlotPlantingModel.CanPlantOnPlot(s, cache, cat, plotID, itemID).ThrowsNullReference?)
            && (out.0 == PlotPlantingModel.Returns(false) ==> out.1 == Some(s))
  {
    var worker := Seqs.FirstIndex(s.workers, WorkerLifecycle.IsIdle);
    if worker.Some? {
      GuardedPlantAnswersTheGuard(s, cache, cat, guid, worker.value, plotID, itemID, now);
    }
  }

  /** Behind the guard, the planting succeeds exactly when the intended guard holds, and a refusal changes nothing. */
  lemma GuardedPlantAnswersTheGuard(s: GameState.GameState, cache: PlotCache.PlotCache, cat: Catalog,
                                    guid: nat -> string, w: nat, plotID: int, itemID: ItemID, now: int)
    requires w < |s.workers|
    ensures var out := GuardedPlant(s, cache, cat, guid, w, plotID, itemID, now);
            (out.0 == PlotPlantingModel.Returns(true) <==> PlotPlantingModel.CanPlantOnPlotChecked(s, cache, cat, plotID, itemID))
            && (out.0.ThrowsNullReference? <==> PlotPlantingModel.CanPlantOnPlot(s, cache, cat, plotID, itemID).ThrowsNullReference?)
            && (out.0 == PlotPlantingModel.Returns(false) ==> out.1 == s)
  {
    var guard := PlotPlantingModel.CanPlantOnPlot(s, cache, cat, plotID, itemID);
    if GetItem(cat, itemID).Some? {
      PlotPlantingModel.CanPlantAnswersForKnownItems(s, cache, cat, plotID, itemID);
      if guard == PlotPlantingModel.Returns(true) {
        var tasked := GameState.SyncBusyWorkers(AssignWorker(s, w, WorkerTask.Plant, plotID, cat, now));
        assert tasked.plots == s.plots && tasked.player.inventory == s.player.inventory;
        assert PlotPlantingModel.CanPlantOnPlotChecked(tasked, cache, cat, plotID, itemID);
        PlotPlantingModel.CanPlantIffPlantingSucceeds(tasked, cache, cat, guid, plotID, itemID, now);
      }
    } else {
      assert !PlotPlantingModel.CanPlantOnPlotChecked(s, cache, cat, plotID, itemID);
    }
  }
}
