# AutoFarm simulation core in Dafny

AutoFarm is an idle farming game. Farm entities (plants and animals) sit on
numbered land plots and run a timer-driven lifecycle: Growing, then
ReadyToHarvest, then Decaying, then Dead. While ReadyToHarvest they produce
yields up to a per-kind limit. Hired workers are Idle or Busy. A periodic
assignment pass sends idle workers to harvest or milk plots that hold
products, and then to plant the most valuable seed on empty plots. A Busy
worker finishes after a fixed task duration, and the finished task harvests
its plot into the player's inventory, scaled by the equipment yield bonus.
The same rules run live, one frame-driven tick at a time, and after the
game has been away, when an offline catch-up replays the elapsed seconds as a
timeline of worker, assignment and entity events.

This project models that core:

- the per-object records (entity instance, worker, plot, player) as classes
  whose methods update their fields in place, each proved against a pure
  function on a value datatype (`EntityLifecycle`, `WorkerLifecycle`,
  `PlotState`, `PlayerState`);
- the save aggregate `GameSaveData` as a class holding the plot, entity and
  worker lists, with the services (plot entities, planting, navigation,
  worker queries, assignment, task processing, worker updates, the farm entity
  update manager, the offline event system and the offline worker simulation)
  as methods on it. Each is proved equal to a function on the `GameState`
  value, and the properties are proved about those functions;
- the read-only catalog (entity, item and store definitions, game settings)
  and the pure helpers (plot utilities, the placement validator, the CSV
  escaping and line parser, the display formatting functions).

`OfflineEventSystem.RemoveDeadEntity`
(Assets/Scripts/Core/OfflineSimulation/OfflineEventSystem.cs:193-211) does
the same as the farm entity update manager's; both are modelled by
`FarmEntityUpdate.RemoveDeadEntity` and the shared entity pass
`FarmEntityUpdate.EntityPass`.

Time is `real` seconds for instance timers; catalog times are minutes and
are multiplied by 60 where the source does. Offline seconds and the offline
event intervals are whole numbers. Wall-clock time and fresh identifiers
(`Guid.NewGuid`) are parameters: `now`, and a supply `guid: nat -> string`
whose position the save records.

## Model

| member | source | states |
|---|---|---|
| GameEnums.AllItemIDsComplete | Assets/Scripts/Data/Enums/GameEnums.cs:16-28 | the declaration-order list of item ids holds every ItemID value |
| GameEnums.AllItemIDsDistinct | Assets/Scripts/Data/Enums/GameEnums.cs:16-28 | no item id appears twice in the declaration-order list |
| GameSettings.DefaultGameSettings | Assets/Scripts/Data/ScriptableObjects/GameSettings.cs:14-31 | a fresh settings asset starts with 1000 gold, 3 plots, 1 worker, equipment level 1, an empty inventory, a 2-minute worker task and a 0.1 bonus per level |
| GameSettings.StartingInventoryKeys | Assets/Scripts/Data/ScriptableObjects/GameSettings.cs:34-42 | the starting-inventory dictionary has exactly the listed item ids as keys |
| GameSettings.LastListedAmountWins | Assets/Scripts/Data/ScriptableObjects/GameSettings.cs:34-42 | for an id listed more than once, the dictionary keeps the amount of its last entry |
| EntityDefinitionCollection.GetEntityDefinition | Assets/Scripts/Data/ScriptableObjects/EntityDefinitionCollection.cs:12-15 | null exactly when no definition has the id; otherwise the first definition in list order with that id |
| EntityDefinitionCollection.GetEntitiesByType | Assets/Scripts/Data/ScriptableObjects/EntityDefinitionCollection.cs:17-20 | the result holds exactly the definitions of that type |
| EntityDefinitionCollection.GetPlants | Assets/Scripts/Data/ScriptableObjects/EntityDefinitionCollection.cs:22-25 | exactly the plant definitions |
| EntityDefinitionCollection.GetAnimals | Assets/Scripts/Data/ScriptableObjects/EntityDefinitionCollection.cs:27-30 | exactly the animal definitions |
| EntityDefinitionCollection.EntitiesByTypeKeepsOrder | Assets/Scripts/Data/ScriptableObjects/EntityDefinitionCollection.cs:17-20 | the type filter keeps list order: it distributes over concatenation |
| EntityDefinitionCollection.PlantsAndAnimalsPartition | Assets/Scripts/Data/ScriptableObjects/EntityDefinitionCollection.cs:22-30 | plants and animals together are the whole collection, each definition once |
| ItemDefinitionCollection.GetItemDefinition | Assets/Scripts/Data/ScriptableObjects/ItemDefinitionCollection.cs:12-15 | null exactly when no definition has the id; otherwise the first one in list order with it |
| ItemDefinitionCollection.GetItemsByType | Assets/Scripts/Data/ScriptableObjects/ItemDefinitionCollection.cs:17-20 | exactly the definitions of that item type |
| ItemDefinitionCollection.GetSeeds | Assets/Scripts/Data/ScriptableObjects/ItemDefinitionCollection.cs:22-25 | exactly the seed definitions |
| ItemDefinitionCollection.GetProducts | Assets/Scripts/Data/ScriptableObjects/ItemDefinitionCollection.cs:27-30 | exactly the product definitions |
| ItemDefinitionCollection.GetCurrency | Assets/Scripts/Data/ScriptableObjects/ItemDefinitionCollection.cs:32-35 | null exactly when there is no currency item; otherwise the first currency item |
| ItemDefinitionCollection.ItemsByTypeKeepsOrder | Assets/Scripts/Data/ScriptableObjects/ItemDefinitionCollection.cs:17-20 | the type filter distributes over concatenation, so list order is kept |
| StoreItemCollection.GetStoreItem | Assets/Scripts/Data/ScriptableObjects/StoreItemCollection.cs:12-15 | null exactly when no entry has the store id; otherwise the first such entry |
| StoreItemCollection.GetItemsByPurchaseType | Assets/Scripts/Data/ScriptableObjects/StoreItemCollection.cs:17-20 | exactly the entries of that purchase type |
| StoreItemCollection.GetSeedItems | Assets/Scripts/Data/ScriptableObjects/StoreItemCollection.cs:22-25 | exactly the seed entries |
| StoreItemCollection.GetAnimalItems | Assets/Scripts/Data/ScriptableObjects/StoreItemCollection.cs:27-30 | exactly the animal entries |
| StoreItemCollection.GetUpgradeItems | Assets/Scripts/Data/ScriptableObjects/StoreItemCollection.cs:32-37 | exactly the equipment, worker and land entries |
| StoreItemCollection.ItemsByPurchaseTypeKeepsOrder | Assets/Scripts/Data/ScriptableObjects/StoreItemCollection.cs:17-20 | the purchase-type filter distributes over concatenation |
| StoreItemCollection.ShopListsCoverEveryEntryOnce | Assets/Scripts/Data/ScriptableObjects/StoreItemCollection.cs:22-37 | the seed, animal and upgrade lists together hold every entry exactly once |
| EntityLifecycle.InitialTimers | Assets/Scripts/Data/DynamicData/FarmEntityInstanceData.cs:76-89 | the timers are the definition's production and decay minutes times 60, or 600 and 3600 seconds without a definition |
| EntityLifecycle.DefaultEntity | Assets/Scripts/Data/DynamicData/FarmEntityInstanceData.cs:33-46 | the JSON constructor gives kind None, plot -1, Growing, no yields, no products and zero timers |
| EntityLifecycle.NewEntity | Assets/Scripts/Data/DynamicData/FarmEntityInstanceData.cs:48-74 | a new entity keeps the given kind, plot and position, is Growing with 0 yields and 0 products, and gets the initial timers |
| EntityLifecycle.UpdateTimers | Assets/Scripts/Data/DynamicData/FarmEntityInstanceData.cs:91-160 | without a definition nothing changes; identity and placement are kept; at most one yield per call, adding exactly the yield amount; Dead stays Dead |
| EntityLifecycle.GetTimeRemaining | Assets/Scripts/Data/DynamicData/FarmEntityInstanceData.cs:163-176 | the production timer while Growing, the smaller of both timers when ready, the decay timer when Decaying, 0 when Dead |
| EntityLifecycle.Harvest | Assets/Scripts/Data/DynamicData/FarmEntityInstanceData.cs:218-272 | with nothing to collect or no definition: failure and no change; otherwise the whole stock is handed over as the definition's product and emptied, the yield counter kept |
| EntityLifecycle.UpdateFromOfflineTime | Assets/Scripts/Data/DynamicData/FarmEntityInstanceData.cs:279-288 | no change unless the stored timestamp and the elapsed seconds are positive; otherwise UpdateTimers by the elapsed seconds |
| EntityLifecycle.GrowingStep | Assets/Scripts/Data/DynamicData/FarmEntityInstanceData.cs:98-113 | Growing becomes ReadyToHarvest exactly when the production timer runs out; that step yields once and restarts both timers |
| EntityLifecycle.ReadyStepOutcome | Assets/Scripts/Data/DynamicData/FarmEntityInstanceData.cs:115-141 | a yield is added exactly when the timer ran out below the limit; the entity leaves ReadyToHarvest exactly when decay ran out or the limit is reached, to Decaying with products and a fresh decay timer, else to Dead |
| EntityLifecycle.DecayingStep | Assets/Scripts/Data/DynamicData/FarmEntityInstanceData.cs:143-152 | Decaying becomes Dead exactly when the decay timer runs out, losing its products |
| EntityLifecycle.UpdateTimersNeverRegresses | Assets/Scripts/Data/DynamicData/FarmEntityInstanceData.cs:96-157 | timers never move an entity back in its life cycle |
| EntityLifecycle.UpdateTimersKeepsProductsInvariant | Assets/Scripts/Data/DynamicData/FarmEntityInstanceData.cs:131-151 | UpdateTimers keeps the stock non-negative and keeps a dead entity empty |
| EntityLifecycle.HarvestKeepsProductsInvariant | Assets/Scripts/Data/DynamicData/FarmEntityInstanceData.cs:243-252 | Harvest keeps the stock non-negative and keeps a dead entity empty |
| EntityLifecycle.UpdateTimersKeepsYieldsWithinLimit | Assets/Scripts/Data/DynamicData/FarmEntityInstanceData.cs:98-141 | with a limit of at least 1 the yield counter never passes the limit, and a growing entity has no yields |
| EntityLifecycle.HarvestKeepsYieldsWithinLimit | Assets/Scripts/Data/DynamicData/FarmEntityInstanceData.cs:218-272 | Harvest keeps the yield counter within the limit |
| EntityLifecycle.HarvestOutcome | Assets/Scripts/Data/DynamicData/FarmEntityInstanceData.cs:245-268 | after a harvest the entity dies exactly when it was decaying at the limit; otherwise the decay timer restarts and it is ReadyToHarvest if it can yield more, else Decaying |
| EntityLifecycle.HarvestEmptiesStock | Assets/Scripts/Data/DynamicData/FarmEntityInstanceData.cs:204-243 | after a successful harvest the entity cannot be harvested again |
| FarmEntityInstanceData.FarmEntityInstanceData.Default | Assets/Scripts/Data/DynamicData/FarmEntityInstanceData.cs:33-46 | the fields are those of the default entity |
| FarmEntityInstanceData.FarmEntityInstanceData.constructor | Assets/Scripts/Data/DynamicData/FarmEntityInstanceData.cs:62-74 | the fields are those of a new entity of that kind, plot and position |
| FarmEntityInstanceData.FarmEntityInstanceData.InitializeFromDefinition | Assets/Scripts/Data/DynamicData/FarmEntityInstanceData.cs:76-89 | only the two timers change, to the initial timers |
| FarmEntityInstanceData.FarmEntityInstanceData.UpdateTimers | Assets/Scripts/Data/DynamicData/FarmEntityInstanceData.cs:91-160 | the fields afterwards are the value model's UpdateTimers of the fields before |
| FarmEntityInstanceData.FarmEntityInstanceData.Harvest | Assets/Scripts/Data/DynamicData/FarmEntityInstanceData.cs:218-272 | the result and the fields afterwards are the value model's Harvest of the fields before |
| FarmEntityInstanceData.FarmEntityInstanceData.UpdateFromOfflineTime | Assets/Scripts/Data/DynamicData/FarmEntityInstanceData.cs:279-288 | the fields afterwards are the value model's offline catch-up of the fields before |
| WorkerLifecycle.NewWorker | Assets/Scripts/Data/DynamicData/WorkerData.cs:43-51 | a new worker is Idle with task None, no target and no time left |
| WorkerLifecycle.TaskDuration | Assets/Scripts/Data/DynamicData/WorkerData.cs:76-77 | a task takes workerTaskDuration minutes in seconds, or 120 seconds without settings |
| WorkerLifecycle.AssignTask | Assets/Scripts/Data/DynamicData/WorkerData.cs:63-80 | a busy worker is left as it was; an idle one becomes Busy with that task and target and the full task duration |
| WorkerLifecycle.Reset | Assets/Scripts/Data/DynamicData/WorkerData.cs:113-129 | the worker is reset to a new idle worker with the same id |
| WorkerLifecycle.CompleteTask | Assets/Scripts/Data/DynamicData/WorkerData.cs:103-121 | the result reports the assigned task and target as done, and the worker is idle with nothing kept |
| WorkerLifecycle.CancelTask | Assets/Scripts/Data/DynamicData/WorkerData.cs:123-130 | the worker is idle with no task, no target and no time: no progress is kept |
| WorkerLifecycle.UpdateTask | Assets/Scripts/Data/DynamicData/WorkerData.cs:82-101 | a worker that is not busy fails with task None and does not change; a busy one completes exactly when its remaining time minus dt is at most 0, reporting its task and target and going idle, and otherwise only loses dt |
| WorkerLifecycle.UpdateFromOfflineTime | Assets/Scripts/Data/DynamicData/WorkerData.cs:132-141 | only a busy worker with a positive timestamp and positive elapsed seconds changes, by UpdateTask over those seconds |
| WorkerLifecycle.GetTaskProgress | Assets/Scripts/Data/DynamicData/WorkerData.cs:143-151 | 0 for a worker that is not busy; otherwise progress times the duration is the time already worked (non-finite for a zero duration) |
| WorkerLifecycle.OperationsKeepIdleIsReset | Assets/Scripts/Data/DynamicData/WorkerData.cs:63-141 | every operation keeps an idle worker free of task, target and time |
| WorkerLifecycle.UpdateTaskKeepsTimeWithinTask | Assets/Scripts/Data/DynamicData/WorkerData.cs:82-101 | with non-negative steps a busy worker always has between 0 and the full duration left |
| WorkerLifecycle.AssignTaskKeepsTimeWithinTask | Assets/Scripts/Data/DynamicData/WorkerData.cs:63-80 | assignment starts a busy worker with time no more than its catalog duration |
| WorkerLifecycle.ProgressInUnitInterval | Assets/Scripts/Data/DynamicData/WorkerData.cs:143-151 | under that invariant the progress lies in [0, 1) |
| WorkerLifecycle.FullDurationCompletes | Assets/Scripts/Data/DynamicData/WorkerData.cs:63-111 | one update by the whole task duration completes the just-assigned task, reporting that task and target |
| WorkerData.WorkerData.constructor | Assets/Scripts/Data/DynamicData/WorkerData.cs:43-51 | the fields are those of a new idle worker with that id |
| WorkerData.WorkerData.AssignTask | Assets/Scripts/Data/DynamicData/WorkerData.cs:63-80 | the fields afterwards are the value model's AssignTask of the fields before |
| WorkerData.WorkerData.UpdateTask | Assets/Scripts/Data/DynamicData/WorkerData.cs:82-101 | the result and the fields afterwards are the value model's UpdateTask |
| WorkerData.WorkerData.CompleteTask | Assets/Scripts/Data/DynamicData/WorkerData.cs:103-121 | the result and the fields afterwards are the value model's CompleteTask |
| WorkerData.WorkerData.CancelTask | Assets/Scripts/Data/DynamicData/WorkerData.cs:123-130 | the fields afterwards are the value model's CancelTask |
| WorkerData.WorkerData.UpdateFromOfflineTime | Assets/Scripts/Data/DynamicData/WorkerData.cs:132-141 | the fields afterwards are the value model's offline catch-up |
| PlotState.NewPlot | Assets/Scripts/Data/DynamicData/PlotData.cs:26-31 | a new plot has the given id, is Empty and records no entity |
| PlotState.DefaultPlot | Assets/Scripts/Data/DynamicData/PlotData.cs:18-24 | the JSON constructor gives the empty plot with id -1 |
| PlotState.OccupyPlot | Assets/Scripts/Data/DynamicData/PlotData.cs:43-52 | an empty id is rejected (the source throws) and nothing changes; otherwise the plot is Occupied by that id, its id kept |
| PlotState.ClearPlot | Assets/Scripts/Data/DynamicData/PlotData.cs:54-58 | the plot is Empty with no entity, its id kept |
| PlotState.ValidateState | Assets/Scripts/Data/DynamicData/PlotData.cs:65-76 | the id is kept; a locked or already consistent plot is untouched |
| PlotState.ValidateStateMakesConsistent | Assets/Scripts/Data/DynamicData/PlotData.cs:65-76 | after ValidateState, Empty means no id and Occupied means an id, and a second ValidateState changes nothing |
| PlotState.OccupyAndClearAreConsistent | Assets/Scripts/Data/DynamicData/PlotData.cs:43-63 | occupying and clearing leave consistent plots; an occupied plot HasEntity its id, and a cleared plot has no entity |
| PlotData.PlotData.constructor | Assets/Scripts/Data/DynamicData/PlotData.cs:26-31 | the fields are those of a new plot with that id |
| PlotData.PlotData.OccupyPlot | Assets/Scripts/Data/DynamicData/PlotData.cs:43-52 | succeeds exactly when the value model accepts the id, with the value model's plot; on the throwing path the fields are unchanged |
| PlotData.PlotData.ClearPlot | Assets/Scripts/Data/DynamicData/PlotData.cs:54-58 | the fields afterwards are the value model's ClearPlot |
| PlotData.PlotData.ValidateState | Assets/Scripts/Data/DynamicData/PlotData.cs:65-76 | the fields afterwards are the value model's ValidateState |
| PlayerState.SerializedKeys | Assets/Scripts/Data/DynamicData/PlayerData.cs:81-85 | the keys written are exactly the dictionary's keys met in the enumeration, at most one per id enumerated |
| PlayerState.SerializedValues | Assets/Scripts/Data/DynamicData/PlayerData.cs:81-85 | one value is written per key written |
| PlayerState.SerializeInventory | Assets/Scripts/Data/DynamicData/PlayerData.cs:74-86 | the dictionary is kept; the two lists have equal length, hold each key of the dictionary once and no other |
| PlayerState.PairsToMap | Assets/Scripts/Data/DynamicData/PlayerData.cs:90-95 | the dictionary built from the first n pairs has exactly the first n keys |
| PlayerState.DeserializeInventory | Assets/Scripts/Data/DynamicData/PlayerData.cs:88-96 | the lists are kept and the dictionary's keys are exactly the keys among the first min(keys, values) pairs |
| PlayerState.InitialPlayer | Assets/Scripts/Data/DynamicData/PlayerData.cs:43-72 | no busy workers and no gold earned; the settings' starting gold, equipment level, workers, plots and inventory, or 1000, 1, 1, 3 and nothing without settings; the lists match the dictionary |
| PlayerState.GetItemCount | Assets/Scripts/Data/DynamicData/PlayerData.cs:148-151 | 0 for an absent key |
| PlayerState.AddItem | Assets/Scripts/Data/DynamicData/PlayerData.cs:104-116 | that item's count grows by the amount and the entry exists; every other item's count and presence is unchanged; gold and counters unchanged; the lists match the dictionary |
| PlayerState.RemoveItem | Assets/Scripts/Data/DynamicData/PlayerData.cs:118-134 | fails exactly when HasItem does not hold, with no change; otherwise the count drops by the amount, the entry is deleted once no longer positive, other items keep their counts, and the lists match the dictionary |
| PlayerState.AddGold | Assets/Scripts/Data/DynamicData/PlayerData.cs:152-156 | gold and lifetime gold both grow by the amount |
| PlayerState.SpendGold | Assets/Scripts/Data/DynamicData/PlayerData.cs:158-166 | succeeds exactly when the player holds the amount, then deducting it; otherwise no change; gold that was non-negative stays non-negative |
| PlayerState.AssignWorker | Assets/Scripts/Data/DynamicData/PlayerData.cs:178-184 | one more busy worker exactly when one is available, otherwise no change |
| PlayerState.FreeWorker | Assets/Scripts/Data/DynamicData/PlayerData.cs:186-192 | one fewer busy worker, never below zero |
| PlayerState.WorkerCountersStayInRange | Assets/Scripts/Data/DynamicData/PlayerData.cs:168-192 | the busy counter stays between 0 and the number hired |
| PlayerState.SerializedKeysDistinct | Assets/Scripts/Data/DynamicData/PlayerData.cs:81-85 | enumerating distinct ids writes each key once |
| PlayerState.PairsToMapPrefix | Assets/Scripts/Data/DynamicData/PlayerData.cs:92-95 | pairs beyond the first n do not affect the dictionary built from them |
| PlayerState.DeserializeSerializedPrefix | Assets/Scripts/Data/DynamicData/PlayerData.cs:74-96 | rebuilding from the lists written for some ids gives the dictionary restricted to those ids |
| PlayerState.SerializeDeserializeRoundTrip | Assets/Scripts/Data/DynamicData/PlayerData.cs:74-96 | DeserializeInventory after SerializeInventory gives back the same dictionary |
| PlayerState.LastPairWins | Assets/Scripts/Data/DynamicData/PlayerData.cs:92-95 | for a repeated key, the value of its last occurrence among the paired prefix is kept |
| PlayerData.PlayerData.constructor | Assets/Scripts/Data/DynamicData/PlayerData.cs:43-72 | the fields are those of the initial player for the settings |
| PlayerData.PlayerData.SerializeInventory | Assets/Scripts/Data/DynamicData/PlayerData.cs:74-86 | the fields afterwards are the value model's SerializeInventory |
| PlayerData.PlayerData.SerializedLists | Assets/Scripts/Data/DynamicData/PlayerData.cs:78-85 | the foreach loop writes the keys and values of the model's enumeration |
| PlayerData.PlayerData.DeserializeInventory | Assets/Scripts/Data/DynamicData/PlayerData.cs:88-96 | the fields afterwards are the value model's DeserializeInventory |
| PlayerData.PlayerData.AddItem | Assets/Scripts/Data/DynamicData/PlayerData.cs:104-116 | the fields afterwards are the value model's AddItem |
| PlayerData.PlayerData.RemoveItem | Assets/Scripts/Data/DynamicData/PlayerData.cs:118-134 | the result and the fields afterwards are the value model's RemoveItem |
| PlayerData.PlayerData.AddGold | Assets/Scripts/Data/DynamicData/PlayerData.cs:152-156 | the fields afterwards are the value model's AddGold |
| PlayerData.PlayerData.SpendGold | Assets/Scripts/Data/DynamicData/PlayerData.cs:158-166 | the result and the fields afterwards are the value model's SpendGold |
| PlayerData.PlayerData.AssignWorker | Assets/Scripts/Data/DynamicData/PlayerData.cs:178-184 | the fields afterwards are the value model's AssignWorker |
| PlayerData.PlayerData.FreeWorker | Assets/Scripts/Data/DynamicData/PlayerData.cs:186-192 | the fields afterwards are the value model's FreeWorker |
| GameState.FreshPlots | Assets/Scripts/Data/DynamicData/GameSaveData.cs:36-40 | n plots, the i-th a new empty plot with id i |
| GameState.FreshWorkers | Assets/Scripts/Data/DynamicData/GameSaveData.cs:43-47 | n workers, the i-th a new idle worker named worker_i |
| GameState.NewGame | Assets/Scripts/Data/DynamicData/GameSaveData.cs:30-52 | default player; one empty plot per starting plot numbered by position; one idle worker per hired worker; no entities; timestamp now and zero play time |
| GameState.EmptySave | Assets/Scripts/Data/DynamicData/GameSaveData.cs:19-28 | default player and empty plot, entity and worker lists |
| GameState.GetPlot | Assets/Scripts/Data/DynamicData/GameSaveData.cs:85-88 | null exactly when no plot has the id; otherwise a stored plot with that id |
| GameState.PlotIndex | Assets/Scripts/Data/DynamicData/GameSaveData.cs:85-88 | the position of the first plot with the id, the one Find returns |
| GameState.GetFarmEntity | Assets/Scripts/Data/DynamicData/GameSaveData.cs:90-93 | null exactly when no entity has the instance id; otherwise a stored entity with that id |
| GameState.GetWorker | Assets/Scripts/Data/DynamicData/GameSaveData.cs:95-98 | null exactly when no worker has the id; otherwise a stored worker with that id |
| GameState.PlotLookupIsIndexing | Assets/Scripts/Data/DynamicData/GameSaveData.cs:85-88 | when every plot's id is its position, GetPlot finds a plot exactly for ids 0..count-1, at that position |
| GameState.EntityIndex | Assets/Scripts/Data/DynamicData/GameSaveData.cs:90-93 | the position of the first entity with the instance id |
| GameState.WorkerIndex | Assets/Scripts/Data/DynamicData/GameSaveData.cs:95-98 | the position of the first worker with the id |
| GameState.UpdatePlot | Assets/Scripts/Data/Services/GameDataProvider.cs:22-31 | an unknown id changes nothing; otherwise only the found plot changes, it becomes the validated copy of the given plot, and every plot keeps its id |
| GameState.UpdateFarmEntity | Assets/Scripts/Data/Services/GameDataProvider.cs:61-69 | an unknown id changes nothing; otherwise only the found entity changes, and only in its state and timestamp |
| GameState.UpdateFarmEntityWritesBack | Assets/Scripts/Data/Services/GameDataProvider.cs:61-69 | an entity read from the save and changed only in state and timestamp is what a later lookup returns |
| GameState.UpdateWorker | Assets/Scripts/Data/Services/GameDataProvider.cs:81-92 | an unknown id changes nothing; otherwise the other workers are kept and a later lookup returns the given worker |
| GameState.AddPlot | Assets/Scripts/Data/DynamicData/GameSaveData.cs:100-108 | appends an empty plot whose id is the old count; the plot total equals the new count; entities and workers kept |
| GameState.AddWorker | Assets/Scripts/Data/DynamicData/GameSaveData.cs:110-115 | appends idle worker_{old count}; the hired total equals the new count; plots and entities kept |
| GameState.AddFarmEntity | Assets/Scripts/Data/DynamicData/GameSaveData.cs:117-123 | a null entity or an empty instance id changes nothing; otherwise the entity is appended and nothing else changes |
| GameState.RemoveFarmEntity | Assets/Scripts/Data/DynamicData/GameSaveData.cs:125-128 | the entities left are exactly those with another id, each kept as many times as before |
| GameState.GetIdleWorkers | Assets/Scripts/Data/DynamicData/GameSaveData.cs:130-133 | exactly the idle workers of the save |
| GameState.GetBusyWorkers | Assets/Scripts/Data/DynamicData/GameSaveData.cs:135-138 | exactly the busy workers of the save |
| GameState.IdleAndBusyPartitionWorkers | Assets/Scripts/Data/DynamicData/GameSaveData.cs:130-138 | idle and busy workers together are the worker list, as a multiset and by count |
| GameState.SyncBusyWorkers | Assets/Scripts/Data/DynamicData/GameSaveData.cs:65-69 | the player's busy count equals the number of busy workers; nothing else changes |
| GameState.SyncBusyWorkersIdempotent | Assets/Scripts/Data/DynamicData/GameSaveData.cs:156-157 | syncing twice is syncing once, and a synced save is left as it is |
| GameState.EntitiesCaughtUp | Assets/Scripts/Data/DynamicData/GameSaveData.cs:144-148 | each entity is caught up to now with its own definition, in place |
| GameState.WorkersCaughtUp | Assets/Scripts/Data/DynamicData/GameSaveData.cs:150-154 | each worker is caught up to now, in place |
| GameState.UpdateOfflineProgress | Assets/Scripts/Data/DynamicData/GameSaveData.cs:140-158 | entities and workers caught up, plots kept, busy count synced |
| GameState.StampEntities | Assets/Scripts/Data/DynamicData/GameSaveData.cs:71-75 | every entity gets the timestamp now and keeps all else |
| GameState.PrepareForSave | Assets/Scripts/Data/DynamicData/GameSaveData.cs:60-76 | save stamped now, inventory lists rewritten from the dictionary, busy count synced, every entity stamped |
| GameState.PrepareAfterLoad | Assets/Scripts/Data/DynamicData/GameSaveData.cs:79-83 | the inventory dictionary rebuilt from the lists, then entities and workers caught up and the busy count synced |
| GameState.NewGameIsValid | Assets/Scripts/Data/DynamicData/GameSaveData.cs:160-168 | a new game passes IsValidSave, numbers its plots by position, has a synced busy count and consistent plots |
| GameState.AddPlotAndAddWorkerKeepValid | Assets/Scripts/Data/DynamicData/GameSaveData.cs:100-115 | adding a plot or a worker keeps a valid, position-numbered save valid and numbered |
| GameState.RemoveFarmEntityRemovesExactly | Assets/Scripts/Data/DynamicData/GameSaveData.cs:125-128 | afterwards no entity has the id, and the list shrank by the number that had it |
| GameSaveData.RemoveAllWithID | Assets/Scripts/Data/DynamicData/GameSaveData.cs:127 | the kept list is the filter of the entities with another id |
| GameSaveData.NumberedPlots | Assets/Scripts/Data/DynamicData/GameSaveData.cs:36-40 | the loop builds FreshPlots of the count (none for a negative count) |
| GameSaveData.NumberedWorkers | Assets/Scripts/Data/DynamicData/GameSaveData.cs:43-47 | the loop builds FreshWorkers of the count (none for a negative count) |
| GameSaveData.CatchUpEntities | Assets/Scripts/Data/DynamicData/GameSaveData.cs:144-148 | the foreach yields EntitiesCaughtUp |
| GameSaveData.CatchUpWorkers | Assets/Scripts/Data/DynamicData/GameSaveData.cs:150-154 | the foreach yields WorkersCaughtUp |
| GameSaveData.StampAll | Assets/Scripts/Data/DynamicData/GameSaveData.cs:71-75 | the foreach yields StampEntities |
| GameSaveData.GameSaveData.constructor | Assets/Scripts/Data/DynamicData/GameSaveData.cs:19-28 | the object's state is EmptySave |
| GameSaveData.GameSaveData.InitializeNewGame | Assets/Scripts/Data/DynamicData/GameSaveData.cs:30-52 | the object's state becomes NewGame, with a fresh player object |
| GameSaveData.GameSaveData.AddPlot | Assets/Scripts/Data/DynamicData/GameSaveData.cs:100-108 | the object's state becomes GameState.AddPlot of the old state |
| GameSaveData.GameSaveData.AddWorker | Assets/Scripts/Data/DynamicData/GameSaveData.cs:110-115 | the object's state becomes GameState.AddWorker of the old state |
| GameSaveData.GameSaveData.AddFarmEntity | Assets/Scripts/Data/DynamicData/GameSaveData.cs:117-123 | the object's state becomes GameState.AddFarmEntity of the old state |
| GameSaveData.GameSaveData.RemoveFarmEntity | Assets/Scripts/Data/DynamicData/GameSaveData.cs:125-128 | the object's state becomes GameState.RemoveFarmEntity of the old state |
| GameSaveData.GameSaveData.UpdateOfflineProgress | Assets/Scripts/Data/DynamicData/GameSaveData.cs:140-158 | the object's state becomes GameState.UpdateOfflineProgress of the old state |
| GameSaveData.GameSaveData.PrepareForSave | Assets/Scripts/Data/DynamicData/GameSaveData.cs:60-76 | the object's state becomes GameState.PrepareForSave of the old state |
| GameSaveData.GameSaveData.PrepareAfterLoad | Assets/Scripts/Data/DynamicData/GameSaveData.cs:79-83 | the object's state becomes GameState.PrepareAfterLoad of the old state |
| GameDataManager.RoundToInt | Assets/Scripts/Data/GameDataManager.cs:428 | Mathf.RoundToInt: within a half of its argument, the even neighbour at a tie, and exact on whole numbers |
| GameDataManager.GetPlayerEquipmentLevel | Assets/Scripts/Data/GameDataManager.cs:413-416 | the player's equipment level, 1 without player data |
| GameDataManager.GetEquipmentYieldMultiplier | Assets/Scripts/Data/GameDataManager.cs:418-423 | 1 at level 1, at least 1 from level 1 up with a non-negative bonus, 1 + 0.1 per level above 1 without settings |
| GameDataManager.GetBonusAdjustedAmount | Assets/Scripts/Data/GameDataManager.cs:425-429 | within a half of the base amount times the multiplier |
| GameDataManager.BonusIsIdentityAtLevelOne | Assets/Scripts/Data/GameDataManager.cs:413-429 | at level 1, or without player data, the adjusted amount is the base amount |
| GameDataManager.BonusNeverShrinks | Assets/Scripts/Data/GameDataManager.cs:418-429 | from level 1 up with a non-negative bonus, a non-negative amount is never reduced |
| GameDataManager.ScalingUpNeverShrinks | Assets/Scripts/Data/GameDataManager.cs:427-428 | a non-negative amount times a multiplier of at least 1 is at least the amount |
| GameDataManager.ProductOfNonNegatives | Assets/Scripts/Data/GameDataManager.cs:427-428 | a product of non-negative reals is non-negative |
| GameDataManager.UpgradePlayerEquipment | Assets/Scripts/Data/GameDataManager.cs:403-411 | the equipment level rises by one and nothing else of the player changes; nothing without player data |
| GameDataManager.AddNewWorkerToPlayer | Assets/Scripts/Data/GameDataManager.cs:228-239 | the save becomes GameState.AddWorker of the old save: the increment is overwritten by the list count |
| GameDataManager.AddNewWorkerLeavesHiredEqualToList | Assets/Scripts/Data/GameDataManager.cs:228-239 | incrementing the hired total before AddWorker makes no difference; the total ends at the old list length plus one |
| GameDataManagerOffline.OfflineSecondsExactUpToWrap | Assets/Scripts/Data/GameDataManager.cs:130 | minutes * 60 in 32-bit arithmetic is exact and non-negative up to 35791394 minutes and negative at 35791395 |
| GameDataManagerOffline.SimulateOfflineTimeMinutes | Assets/Scripts/Data/GameDataManager.cs:122-142 | nothing before initialisation; afterwards the save becomes the offline replay of the wrapped minutes * 60 seconds, the player object kept |
| GameDataProvider.IsValidGameStateCases | Assets/Scripts/Data/Services/GameDataProvider.cs:99-102 | false without game data, the save's own validity otherwise |
| GameDataProvider.UpdatePlot | Assets/Scripts/Data/Services/GameDataProvider.cs:22-31 | the save becomes GameState.UpdatePlot of the old save; nothing without game data |
| GameDataProvider.AddPlot | Assets/Scripts/Data/Services/GameDataProvider.cs:33-44 | the save becomes GameState.AddPlot of the old save; nothing without game data |
| GameDataProvider.UpdateFarmEntity | Assets/Scripts/Data/Services/GameDataProvider.cs:61-69 | the save becomes GameState.UpdateFarmEntity of the old save |
| GameDataProvider.UpdateWorker | Assets/Scripts/Data/Services/GameDataProvider.cs:81-92 | the save becomes GameState.UpdateWorker of the old save |
| GameDataProvider.AddWorker | Assets/Scripts/Data/Services/GameDataProvider.cs:76-79 | the save becomes GameState.AddWorker of the old save |
| PlayerDataService.GetAvailableWorkers | Assets/Scripts/Data/Services/PlayerDataService.cs:70-77 | 0 without game data, otherwise the number of idle workers in the list |
| PlayerDataService.GetItemCount | Assets/Scripts/Data/Services/PlayerDataService.cs:64-68 | the held amount; 0 for an absent item or without game data |
| PlayerDataService.AvailableWorkersAgreeWhenSynced | Assets/Scripts/Data/Services/PlayerDataService.cs:70-77 | on a valid save with a synced busy count, idle workers in the list equal hired minus busy on the player |
| PlayerDataService.AvailableWorkersCanDiffer | Assets/Scripts/Data/Services/PlayerDataService.cs:70-77 | with one idle worker counted busy, the service reports 1 available and the player's own count 0 |
| PlayerDataService.AssignWorker | Assets/Scripts/Data/Services/PlayerDataService.cs:84-90 | the busy count rises by one exactly when the list holds an idle worker; otherwise the player is unchanged |
| PlayerDataService.FreeWorker | Assets/Scripts/Data/Services/PlayerDataService.cs:92-98 | the player becomes PlayerState.FreeWorker of the old player: one fewer busy, never below zero |
| PlayerDataService.UpdatePlayTime | Assets/Scripts/Data/Services/PlayerDataService.cs:105-111 | only the total play time changes, by the frame time |
| PlayerDataService.SpendGold | Assets/Scripts/Data/Services/PlayerDataService.cs:44-47 | false without game data; otherwise the player's own SpendGold result and new state |
| PlotCache.Reach | Assets/Scripts/Core/Plots/Services/PlotService.cs:28 | the cache reaches no further than the save's plots or its own count |
| PlotCache.Refresh | Assets/Scripts/Core/Plots/Services/PlotService.cs:21-39 | the cache is initialised and holds every save plot (none without game data); with navigation, an index past the end is pulled back to the last plot (0 for none), otherwise kept |
| PlotCache.GetPlot | Assets/Scripts/Core/Plots/Services/PlotService.cs:41-47 | null before initialisation; otherwise the first cached plot with the id, null exactly when no cached plot has it |
| PlotCache.GetCurrentPlot | Assets/Scripts/Core/Plots/Services/PlotService.cs:54-60 | a plot exactly when initialised and the index is within the cache; then the plot at that index |
| PlotCache.RefreshedLookupIsSaveLookup | Assets/Scripts/Core/Plots/Services/PlotService.cs:21-47 | right after a refresh, the cached lookup finds what the save's own lookup finds |
| PlotCache.CurrentPlotIsLookupOfCurrentID | Assets/Scripts/Core/Plots/Services/PlotService.cs:41-60 | with ids equal to positions, the current plot is the lookup of the current index |
| PlotCache.PlotAddedAfterRefreshIsNotCached | Assets/Scripts/Core/Plots/Services/PlotService.cs:21-47 | a plot added to the save after a refresh is found by the save and not by the cache |
| PlotNavigation.NextIndex | Assets/Scripts/Core/Plots/Services/PlotNavigationService.cs:50 | the next position, wrapping to 0 after the last |
| PlotNavigation.PreviousIndex | Assets/Scripts/Core/Plots/Services/PlotNavigationService.cs:63 | the previous position, wrapping from 0 to the last |
| PlotNavigation.NextAndPreviousAreInverse | Assets/Scripts/Core/Plots/Services/PlotNavigationService.cs:41-65 | stepping forward then back, or back then forward, returns to a valid position |
| PlotNavigation.PlotNavigationService.constructor | Assets/Scripts/Core/Plots/Services/PlotNavigationService.cs:10-14 | the current index starts at 0 |
| PlotNavigation.PlotNavigationService.SwitchToPlot | Assets/Scripts/Core/Plots/Services/PlotNavigationService.cs:16-39 | succeeds exactly when initialised and the id is a cached position, then moves there; the change event fires exactly when the index moved |
| PlotNavigation.PlotNavigationService.NextPlot | Assets/Scripts/Core/Plots/Services/PlotNavigationService.cs:41-52 | fails exactly when uninitialised or without plots, keeping the index; otherwise moves to NextIndex |
| PlotNavigation.PlotNavigationService.PreviousPlot | Assets/Scripts/Core/Plots/Services/PlotNavigationService.cs:54-65 | fails exactly when uninitialised or without plots, keeping the index; otherwise moves to PreviousIndex |
| PlotService.GetCurrentPlotInfo | Assets/Scripts/Core/Plots/Services/PlotService.cs:72-87 | index and cache count always; emptiness and occupation of the current plot when there is one |
| PlotService.PlotInfoWithoutCurrentPlot | Assets/Scripts/Core/Plots/Services/PlotService.cs:72-87 | without a current plot: empty, unoccupied, kind None, state Dead |
| PlotService.PlotInfoDescribesFirstEntity | Assets/Scripts/Core/Plots/Services/PlotService.cs:72-87 | with a current plot: the kind and state of its first entity, None and Dead exactly when it has none |
| PlotService.PlotService.constructor | Assets/Scripts/Core/Plots/Services/PlotService.cs:11-14 | an empty, uninitialised cache and no navigation service |
| PlotService.PlotService.SetNavigationService | Assets/Scripts/Core/Plots/Services/PlotService.cs:16-19 | the navigation service is set and the cache is kept |
| PlotService.PlotService.RefreshPlotsFromGameData | Assets/Scripts/Core/Plots/Services/PlotService.cs:21-39 | the cache and current index become PlotCache.Refresh of the save and the old index |
| PlotService.PlotService.GetPlot | Assets/Scripts/Core/Plots/Services/PlotService.cs:41-47 | null before initialisation; a found plot has the id |
| PlotService.PlotService.GetTotalPlotsCount | Assets/Scripts/Core/Plots/Services/PlotService.cs:67-70 | the number of cached plots |
| PlotEntityQueries.GetPlotEntities | Assets/Scripts/Core/Plots/Services/PlotEntityService.cs:14-24 | exactly the entities standing on the plot |
| PlotEntityQueries.GetPlotEntity | Assets/Scripts/Core/Plots/Services/PlotEntityService.cs:35-39 | null exactly when no entity stands on the plot; otherwise a stored entity on it |
| PlotEntityQueries.PlotHasHarvestableEntities | Assets/Scripts/Core/Plots/Services/PlotEntityService.cs:66-70 | true exactly when some entity on the plot can be harvested and holds products |
| PlotEntityQueries.PlotEntitiesOfDistinctPlots | Assets/Scripts/Core/Plots/Services/PlotEntityService.cs:14-24 | two different plots share no entity |
| PlotEntityQueries.GetCurrentPlotEntities | Assets/Scripts/Core/Plots/Services/PlotEntityService.cs:26-33 | none without a current plot, else the current plot's entities |
| PlotEntityQueries.GetCurrentPlotEntity | Assets/Scripts/Core/Plots/Services/PlotEntityService.cs:41-48 | null without a current plot, else the current plot's first entity |
| PlotUtilities.GetMaxPositionsForPlot | Assets/Scripts/Core/Plots/Utilities/PlotUtilities.cs:37-41 | ten positions for every plot |
| PlotUtilities.FirstFreeFrom | Assets/Scripts/Core/Plots/Utilities/PlotUtilities.cs:19-27 | the least free position from the start index on, -1 exactly when all of them to 9 are taken |
| PlotUtilities.NextAvailablePosition | Assets/Scripts/Core/Plots/Utilities/PlotUtilities.cs:6-28 | the least free position of 0..9, -1 exactly when all ten are taken |
| PlotUtilities.FindNextAvailablePosition | Assets/Scripts/Core/Plots/Utilities/PlotUtilities.cs:6-28 | the set-and-scan loops return NextAvailablePosition |
| PlotEntityValidator.CanAddEntity | Assets/Scripts/Core/Plots/Utilities/PlotEntityValidator.cs:5-29 | true exactly when the position is free, the kind is known, the kind is under its per-plot quantity and no other kind stands on the plot |
| PlotEntityValidator.AppendedEntityJoinsItsPlot | Assets/Scripts/Core/Plots/Services/PlotEntityService.cs:14-24 | appending an entity extends its own plot's list by it and leaves other plots' lists alone |
| PlotEntityValidator.AcceptedEntityExtendsList | Assets/Scripts/Core/Plots/Utilities/PlotEntityValidator.cs:5-29 | an entity passing the four checks keeps a list single-kind, position-distinct and within quantity |
| PlotEntityValidator.AcceptedAdditionKeepsPlotWellFormed | Assets/Scripts/Core/Plots/Utilities/PlotEntityValidator.cs:5-29 | an accepted addition keeps its plot single-kind, position-distinct and within its kind's quantity |
| PlotEntityQueries.PlotHasEntity | Assets/Scripts/Core/Plots/Services/PlotEntityService.cs:56-59 | true exactly when some entity stands on the plot, which is exactly when GetPlotEntity finds one |
| PlotEntityQueries.GetCurrentPlotEntityAtPosition | Assets/Scripts/Core/Plots/Services/PlotEntityService.cs:50-54 | null exactly when no entity of the viewed plot is at the position; a found entity stands on the viewed plot at that position |
| PlotEntityQueries.CurrentPlotHasEntity | Assets/Scripts/Core/Plots/Services/PlotEntityService.cs:61-64 | true exactly when there is a viewed plot and some entity stands on it |
| PlotEntityModel.WriteCachedPlotIsUpdatePlot | Assets/Scripts/Data/Services/GameDataProvider.cs:22-31 | changing the cached plot in place and writing it back through UpdatePlot puts its validated copy at its own position and nowhere else |
| PlotEntityModel.ClearIfEmpty | Assets/Scripts/Core/Plots/Services/PlotEntityService.cs:124-134 | only the plots may change; a plot with entities left, or one the cache does not find, is untouched; an empty one found at position k becomes a fresh empty plot there |
| PlotEntityModel.AddEntityToPlot | Assets/Scripts/Core/Plots/Services/PlotEntityService.cs:72-98 | succeeds exactly when the plot is cached and the validator accepts; a refusal changes nothing |
| PlotEntityModel.NewPlotEntity | Assets/Scripts/Core/Plots/Services/PlotEntityService.cs:83-84 | the new entity carries the next issued id, the asked kind, plot and position, and starts Growing with no stock and no yields |
| PlotEntityModel.AddedEntityOccupiesOnlyAnEmptyPlot | Assets/Scripts/Core/Plots/Services/PlotEntityService.cs:83-95 | a successful addition appends exactly the new entity, issues one id and leaves player and workers alone; the plot becomes Occupied by it when it is the plot's first entity, and the plots stay as they were otherwise |
| PlotEntityModel.AddEntityKeepsPlotWellFormed | Assets/Scripts/Core/Plots/Services/PlotEntityService.cs:72-98 | an addition keeps a plot single-kind, position-distinct and within its kind's quantity |
| PlotEntityModel.AddEntityToCurrentPlot | Assets/Scripts/Core/Plots/Services/PlotEntityService.cs:100-112 | fails without change when no plot is viewed or no position is free; otherwise it is AddEntityToPlot at the viewed plot's next free position |
| PlotEntityModel.CurrentPlotAdditionTakesLeastFreePosition | Assets/Scripts/Core/Plots/Services/PlotEntityService.cs:100-112 | a successful addition puts an entity of the asked kind on the viewed plot at a free position below ten, every lower position being occupied |
| PlotEntityModel.EntityAt | Assets/Scripts/Core/Plots/Services/PlotEntityService.cs:116-117 | null exactly when no entity of the plot stands at the position; otherwise a stored entity of that plot at that position |
| PlotEntityModel.RemoveEntityFromPlot | Assets/Scripts/Core/Plots/Services/PlotEntityService.cs:114-137 | succeeds exactly when some entity of the plot stands at the position; a failure changes nothing |
| PlotEntityModel.RemovalClearsPlotIffNoneRemain | Assets/Scripts/Core/Plots/Services/PlotEntityService.cs:114-137 | after a removal no entity with the removed id is left, every other entity stays, player and workers are unchanged, and the plot is reset exactly when none of its entities remains |
| PlotEntityModel.HarvestIndices | Assets/Scripts/Core/Plots/Services/PlotEntityService.cs:150-151 | the increasing positions of exactly the plot's harvestable entities |
| PlotEntityModel.HarvestLoop | Assets/Scripts/Core/Plots/Services/PlotEntityService.cs:168-188 | the harvest foreach changes only the entity list and keeps its length |
| PlotEntityModel.RemoveAll | Assets/Scripts/Core/Plots/Services/PlotEntityService.cs:199-203 | only the entities change, and an entity stays exactly when its id is not on the list |
| PlotEntityModel.HarvestAllEntitiesOnPlot | Assets/Scripts/Core/Plots/Services/PlotEntityService.cs:148-225 | with nothing harvestable it fails and changes nothing; otherwise it succeeds; workers and issued ids never change |
| PlotEntityModel.HarvestStepOnUniqueIDs | Assets/Scripts/Core/Plots/Services/PlotEntityService.cs:168-188 | with unique ids, one pass replaces the entity by its harvested self, adds its prior stock to the total, records its product and notes its id when the harvest killed it; an entity without a definition adds nothing |
| PlotEntityModel.HarvestLoopEntities | Assets/Scripts/Core/Plots/Services/PlotEntityService.cs:168-188 | with unique ids, the first k passes have replaced exactly the entities at the first k positions by their harvested selves |
| PlotEntityModel.HarvestLoopAccumulators | Assets/Scripts/Core/Plots/Services/PlotEntityService.cs:166-188 | with unique ids, after k passes the total is the summed prior stock, the item the last product and the dead list the ids killed, of the entities at those positions |
| PlotEntityModel.HarvestablesAreSelected | Assets/Scripts/Core/Plots/Services/PlotEntityService.cs:150-151 | the plot's harvestable entities, in order, are the entities at HarvestIndices |
| PlotEntityModel.FullPassAccumulators | Assets/Scripts/Core/Plots/Services/PlotEntityService.cs:150-188 | with unique ids, the whole foreach leaves the total, item and dead list of the plot's harvestable entities |
| PlotEntityModel.HarvestAllReportsThePass | Assets/Scripts/Core/Plots/Services/PlotEntityService.cs:190-197 | a harvest reports the loop's last item and its bonus-adjusted total, and adds that amount of that item to the player when it is positive |
| PlotEntityModel.HarvestAppliesBonusOnceToTotal | Assets/Scripts/Core/Plots/Services/PlotEntityService.cs:166-197 | with unique ids, the reported amount is the equipment bonus applied once to the summed stock the harvestable entities held before, and exactly that is paid in |
| PlotEntityModel.HarvestKeepsAllButTheDead | Assets/Scripts/Core/Plots/Services/PlotEntityService.cs:199-215 | what survives is the loop's entities without every one whose id is on the dead list |
| PlotEntityModel.FullPassEntities | Assets/Scripts/Core/Plots/Services/PlotEntityService.cs:168-188 | with unique ids, the foreach has harvested exactly the plot's harvestable entities and kept the ids unique |
| PlotEntityModel.FullPassDead | Assets/Scripts/Core/Plots/Services/PlotEntityService.cs:182-186 | with unique ids, an entity's id is on the dead list exactly when it was harvested and its harvest killed it |
| PlotEntityModel.HarvestRemovesExactlyTheDead | Assets/Scripts/Core/Plots/Services/PlotEntityService.cs:148-215 | with unique ids, every harvested entity holds no stock; it is gone if the harvest killed it and stored in harvested form otherwise; every entity not harvestable on the plot stays |
| PlotEntityModel.RemoveIfAny | Assets/Scripts/Core/Plots/Services/PlotEntityService.cs:232-236 | only the entities change; nothing without an entity, otherwise exactly the entities with its id go |
| PlotEntityModel.HandleEntityDeath | Assets/Scripts/Core/Plots/Services/PlotEntityService.cs:227-241 | as written: nothing when the plot is not cached; otherwise player and workers are kept, exactly the given plot is reset, and the entities left are the old ones without the id of the viewed plot's first entity |
| PlotEntityModel.HandleEntityDeathRemovesFromViewedPlot | Assets/Scripts/Core/Plots/Services/PlotEntityService.cs:227-241 | as written, a death on one plot while another is viewed removes the viewed plot's first entity, keeps the dying plot's other entities and still marks that plot empty |
| PlotEntityModel.HandleEntityDeathOf | Assets/Scripts/Core/Plots/Services/PlotEntityService.cs:227-241 | corrected: player and workers are kept, and nothing changes when the dead entity's plot is not cached |
| PlotEntityModel.HandledDeathStaysOnItsPlot | Assets/Scripts/Core/Plots/Services/PlotEntityService.cs:227-241 | corrected: exactly the dead entity's id is gone, every other entity stays, and its plot is reset exactly when nothing is left on it, no other plot changing |
| PlotEntityModel.OnEntityUpdated | Assets/Scripts/Core/Plots/Services/PlotEntityService.cs:243-251 | nothing for a null or living entity; a dead one has the as-written HandleEntityDeath run on its plot, with the viewed plot current |
| PlotEntityModel.DeathReportRemovesTheViewedEntity | Assets/Scripts/Core/Plots/Services/PlotEntityService.cs:243-251 | as written, a death reported while another plot holding an entity is viewed removes the viewed plot's first entity, leaves the dead entity listed on its plot and resets that plot to empty |
| PlotEntityService.PlotEntityService.constructor | Assets/Scripts/Core/Plots/Services/PlotEntityService.cs:9-12 | the service keeps the plot service it is given |
| PlotEntityService.PlotEntityService.WriteCachedPlot | Assets/Scripts/Data/Services/GameDataProvider.cs:22-31 | the save becomes PlotEntityModel.WriteCachedPlot of the old save |
| PlotEntityService.PlotEntityService.ClearIfEmpty | Assets/Scripts/Core/Plots/Services/PlotEntityService.cs:124-134 | the save becomes PlotEntityModel.ClearIfEmpty of the old save under the service's cache |
| PlotEntityService.PlotEntityService.AddEntityToPlot | Assets/Scripts/Core/Plots/Services/PlotEntityService.cs:72-98 | result and new save are PlotEntityModel.AddEntityToPlot of the old save |
| PlotEntityService.PlotEntityService.IssueAndPlace | Assets/Scripts/Core/Plots/Services/PlotEntityService.cs:83-95 | one id is issued and the entity is placed as PlotEntityModel.PlaceEntity says |
| PlotEntityService.PlotEntityService.PlaceEntity | Assets/Scripts/Core/Plots/Services/PlotEntityService.cs:86-95 | the save becomes PlotEntityModel.PlaceEntity of the old save |
| PlotEntityService.PlotEntityService.AddEntityToCurrentPlot | Assets/Scripts/Core/Plots/Services/PlotEntityService.cs:100-112 | result and new save are PlotEntityModel.AddEntityToCurrentPlot of the old save at the viewed index |
| PlotEntityService.PlotEntityService.PlotCacheGetCurrentPlot | Assets/Scripts/Core/Plots/Services/PlotService.cs:54-60 | a viewed plot is the one at the current index, within the save |
| PlotEntityService.PlotEntityService.RemoveEntityFromPlot | Assets/Scripts/Core/Plots/Services/PlotEntityService.cs:114-137 | result and new save are PlotEntityModel.RemoveEntityFromPlot of the old save |
| PlotEntityService.PlotEntityService.HarvestAllEntitiesOnPlot | Assets/Scripts/Core/Plots/Services/PlotEntityService.cs:148-225 | result and new save are PlotEntityModel.HarvestAllEntitiesOnPlot of the old save |
| PlotEntityService.PlotEntityService.HarvestLoop | Assets/Scripts/Core/Plots/Services/PlotEntityService.cs:165-188 | the in-place foreach leaves the save and accumulators of PlotEntityModel.HarvestLoop |
| PlotEntityService.PlotEntityService.HarvestOne | Assets/Scripts/Core/Plots/Services/PlotEntityService.cs:170-187 | one pass leaves the save and accumulators of PlotEntityModel.HarvestStep |
| PlotEntityService.PlotEntityService.RemoveAll | Assets/Scripts/Core/Plots/Services/PlotEntityService.cs:199-203 | the save becomes PlotEntityModel.RemoveAll of the old save |
| PlotEntityService.PlotEntityService.HandleEntityDeath | Assets/Scripts/Core/Plots/Services/PlotEntityService.cs:227-241 | as written, on the navigation service's current plot: the save becomes PlotEntityModel.HandleEntityDeath of the old save |
| PlotEntityService.PlotEntityService.HandleEntityDeathOf | Assets/Scripts/Core/Plots/Services/PlotEntityService.cs:227-241 | corrected handler: the save becomes PlotEntityModel.HandleEntityDeathOf of the old save |
| PlotEntityService.PlotEntityService.OnEntityUpdated | Assets/Scripts/Core/Plots/Services/PlotEntityService.cs:243-251 | with the navigation service's current plot, the save becomes PlotEntityModel.OnEntityUpdated of the old save, which runs the as-written handler |
| PlotEntityModel.RemoveEntityFromCurrentPlot | Assets/Scripts/Core/Plots/Services/PlotEntityService.cs:139-146 | a failed removal changes nothing |
| PlotEntityModel.CurrentPlotRemovalTakesTheViewedEntity | Assets/Scripts/Core/Plots/Services/PlotEntityService.cs:139-146 | removal from the viewed plot succeeds exactly when the current-plot query finds an entity at the position, and that entity is gone afterwards |
| PlotEntityService.PlotEntityService.RemoveEntityFromCurrentPlot | Assets/Scripts/Core/Plots/Services/PlotEntityService.cs:139-146 | the result and the save object's new state are the value-level RemoveEntityFromCurrentPlot |
| PlotPlantingModel.Failure | Assets/Scripts/Core/Plots/Services/PlotPlantingService.cs:130-138 | a failed result carries its message and nothing else of note |
| PlotPlantingModel.PlantPass | Assets/Scripts/Core/Plots/Services/PlotPlantingService.cs:59-72 | one pass issues one id, keeps player, workers and the plot's cached position, and changes no plot count |
| PlotPlantingModel.PlantLoop | Assets/Scripts/Core/Plots/Services/PlotPlantingService.cs:59-72 | i passes issue i ids and keep player, workers and the plot's cached position |
| PlotPlantingModel.PlantedEntities | Assets/Scripts/Core/Plots/Services/PlotPlantingService.cs:59-63 | the loop creates exactly as many entities as it makes passes |
| PlotPlantingModel.PlantItemOnPlot | Assets/Scripts/Core/Plots/Services/PlotPlantingService.cs:14-102 | succeeds exactly when the plot is cached and Empty, the item grows into a defined kind and the player holds that kind's per-plot quantity; a failure changes nothing; workers never change |
| PlotPlantingModel.PlantLoopAppends | Assets/Scripts/Core/Plots/Services/PlotPlantingService.cs:59-63 | i passes append exactly the first i planted entities to the save's list |
| PlotPlantingModel.PlantLoopOccupies | Assets/Scripts/Core/Plots/Services/PlotPlantingService.cs:65-71 | after at least one pass the plot is Occupied by the first new entity and no other plot changed |
| PlotPlantingModel.PlantLoopStep | Assets/Scripts/Core/Plots/Services/PlotPlantingService.cs:59-72 | pass i appends its new entity at position i-1; only the first pass writes the plot |
| PlotPlantingModel.PlantingConsumesAndCreatesQuantity | Assets/Scripts/Core/Plots/Services/PlotPlantingService.cs:37-87 | a success takes exactly the per-plot quantity of the item, appends that many Growing entities of the grown kind at positions 0, 1, ..., leaves the plot Occupied by the first, and reports plot, kind and quantity |
| PlotPlantingModel.PlantedEntitiesShape | Assets/Scripts/Core/Plots/Services/PlotPlantingService.cs:61 | planted entity j is a new entity of the kind on the plot at position j, with the j-th drawn id |
| PlotPlantingModel.PlantItemOnCurrentPlot | Assets/Scripts/Core/Plots/Services/PlotPlantingService.cs:104-113 | fails without change when no plot is viewed; otherwise it is PlantItemOnPlot on the viewed plot |
| PlotPlantingModel.CanPlantOnPlot | Assets/Scripts/Core/Plots/Services/PlotPlantingService.cs:115-127 | as written: it dereferences null exactly when the plot is cached and Empty but the item has no definition |
| PlotPlantingModel.UnknownItemMakesCanPlantThrow | Assets/Scripts/Core/Plots/Services/PlotPlantingService.cs:120-123 | as written: an undefined item checked against an empty cached plot throws instead of answering false |
| PlotPlantingModel.CanPlantAnswersForKnownItems | Assets/Scripts/Core/Plots/Services/PlotPlantingService.cs:115-127 | for a defined item the guard as written answers, and answers as the corrected guard does |
| PlotPlantingModel.CanPlantIffPlantingSucceeds | Assets/Scripts/Core/Plots/Services/PlotPlantingService.cs:14-47 | the corrected guard holds exactly when planting on that plot would succeed |
| PlotPlantingService.PlotPlantingService.constructor | Assets/Scripts/Core/Plots/Services/PlotPlantingService.cs:8-12 | the service keeps the plot service and entity service it is given |
| PlotPlantingService.PlotPlantingService.PlantItemOnPlot | Assets/Scripts/Core/Plots/Services/PlotPlantingService.cs:14-102 | result and new save are PlotPlantingModel.PlantItemOnPlot of the old save |
| PlotPlantingService.PlotPlantingService.PayAndPlant | Assets/Scripts/Core/Plots/Services/PlotPlantingService.cs:49-72 | the removal's outcome is returned; when it goes through the save is the planting loop on the paid save, otherwise unchanged |
| PlotPlantingService.PlotPlantingService.PlantLoop | Assets/Scripts/Core/Plots/Services/PlotPlantingService.cs:59-72 | the for loop leaves the save PlotPlantingModel.PlantLoop says |
| PlotPlantingService.PlotPlantingService.PlantPass | Assets/Scripts/Core/Plots/Services/PlotPlantingService.cs:61-71 | one pass leaves the save PlotPlantingModel.PlantPass says |
| PlotPlantingService.PlotPlantingService.PlantItemOnCurrentPlot | Assets/Scripts/Core/Plots/Services/PlotPlantingService.cs:104-113 | result and new save are PlotPlantingModel.PlantItemOnCurrentPlot of the old save |
| WorkerService.GetIdleWorkers | Assets/Scripts/Core/Workers/Services/WorkerService.cs:13-16 | exactly the idle workers of the save, none without game data |
| WorkerService.GetBusyWorkers | Assets/Scripts/Core/Workers/Services/WorkerService.cs:18-21 | exactly the busy workers of the save, none without game data |
| WorkerService.GetWorkerByID | Assets/Scripts/Core/Workers/Services/WorkerService.cs:23-26 | null exactly when no worker has the id; otherwise the first worker with it |
| WorkerService.WorkerCountsDescribeList | Assets/Scripts/Core/Workers/Services/WorkerService.cs:28-41 | idle plus busy is the total, the available count is the number of idle workers, workers are available exactly when one is idle, and there are none without game data |
| WorkerService.UpdateWorkerCounts | Assets/Scripts/Core/Workers/Services/WorkerService.cs:43-55 | with game data the player's busy counter becomes the number of busy workers, and the change event fires exactly when it was out of date; nothing without game data |
| WorkerTaskAssignmentModel.AssignWorker | Assets/Scripts/Core/Workers/Services/WorkerTaskAssignmentService.cs:72 | only worker w changes; an idle worker becomes busy with that task on the plot |
| WorkerTaskAssignmentModel.CancelWorker | Assets/Scripts/Core/Workers/Services/WorkerTaskAssignmentService.cs:116 | only worker w changes, and it is idle afterwards |
| WorkerTaskAssignmentModel.AssignKeepsNoDoubleAssignment | Assets/Scripts/Core/Workers/Services/WorkerTaskAssignmentService.cs:56-62 | giving an idle worker a task on a plot nobody of that family is on keeps the one-worker rule |
| WorkerTaskAssignmentModel.HarvestTaskType | Assets/Scripts/Core/Workers/Services/WorkerTaskAssignmentService.cs:64-70 | the returned task is Milk or Harvest |
| WorkerTaskAssignmentModel.AssignHarvestTask | Assets/Scripts/Core/Workers/Services/WorkerTaskAssignmentService.cs:47-81 | a refusal changes nothing; no worker but w changes |
| WorkerTaskAssignmentModel.AssignHarvestTaskTakesFirstTarget | Assets/Scripts/Core/Workers/Services/WorkerTaskAssignmentService.cs:47-81 | the scan succeeds exactly when some plot has collectable products, no harvest worker and a first entity, and then sends the worker to the first such plot with whatever task its first entity calls for |
| WorkerTaskAssignmentModel.ProductValue | Assets/Scripts/Core/Workers/Services/WorkerTaskAssignmentService.cs:139-152 | a value exists only for a defined item that grows into something, and is a 32-bit int |
| WorkerTaskAssignmentModel.BestItemFrom | Assets/Scripts/Core/Workers/Services/WorkerTaskAssignmentService.cs:132-164 | the running maximum never falls below its start, and is the start or a weighed item |
| WorkerTaskAssignmentModel.BestItemFromIsFirstMaximum | Assets/Scripts/Core/Workers/Services/WorkerTaskAssignmentService.cs:132-164 | the start is kept when nothing beats it; otherwise the result is the first item of greatest weight, above the start |
| WorkerTaskAssignmentModel.GetBestItemToPlant | Assets/Scripts/Core/Workers/Services/WorkerTaskAssignmentService.cs:127-165 | None or an item held with a positive count and a product value |
| WorkerTaskAssignmentModel.AtMostAllItems | Assets/Scripts/Core/Workers/Services/WorkerTaskAssignmentService.cs:135 | the enumeration covers every item |
| WorkerTaskAssignmentModel.BestItemIsFirstOfGreatestValue | Assets/Scripts/Core/Workers/Services/WorkerTaskAssignmentService.cs:127-165 | None when no held item has a positive value; otherwise a held item of greatest value, the first such in ItemID declaration order |
| WorkerTaskAssignmentModel.EnumerationOrderOnlyBreaksTies | Assets/Scripts/Core/Workers/Services/WorkerTaskAssignmentService.cs:132-164 | over any listing of the held keys, as the dictionary enumeration may give them, the loop reaches the same greatest value, returns None in the same cases, and returns the same item when a single candidate has that value |
| WorkerTaskAssignmentModel.PlantTarget | Assets/Scripts/Core/Workers/Services/WorkerTaskAssignmentService.cs:87-100 | null exactly when no plot passes the plant checks; otherwise the first plot that does |
| WorkerTaskAssignmentModel.PlantOn | Assets/Scripts/Core/Workers/Services/WorkerTaskAssignmentService.cs:103-106 | the workers afterwards are those of the Plant assignment |
| WorkerTaskAssignmentModel.AssignPlantTask | Assets/Scripts/Core/Workers/Services/WorkerTaskAssignmentService.cs:83-125 | succeeds exactly when some plot passes the checks, then with the worker on Plant at the first such plot; a refusal changes nothing; no other worker changes |
| WorkerTaskAssignmentModel.PlantGuardNeverThrows | Assets/Scripts/Core/Workers/Services/WorkerTaskAssignmentService.cs:99-100 | for the best item the guard never dereferences null and answers as the corrected guard |
| WorkerTaskAssignmentModel.PlantingOnTargetSucceeds | Assets/Scripts/Core/Workers/Services/WorkerTaskAssignmentService.cs:106-118 | on a plot that passes the checks the planting succeeds, so the revert is never reached |
| WorkerTaskAssignmentModel.TryAssign | Assets/Scripts/Core/Workers/Services/WorkerTaskAssignmentService.cs:27-38 | no worker but w changes |
| WorkerTaskAssignmentModel.HarvestAttemptKeepsRule | Assets/Scripts/Core/Workers/Services/WorkerTaskAssignmentService.cs:47-81 | a harvest attempt on an idle worker keeps the one-worker rule and leaves it on harvest work when it succeeds |
| WorkerTaskAssignmentModel.PlantTargetIsFree | Assets/Scripts/Core/Workers/Services/WorkerTaskAssignmentService.cs:91-97 | the plot the plant scan picks has no worker planting on it |
| WorkerTaskAssignmentModel.PlantOutcomeKeepsRule | Assets/Scripts/Core/Workers/Services/WorkerTaskAssignmentService.cs:97-118 | an outcome unchanged on failure and with the worker on Plant at a free plot on success keeps the one-worker rule |
| WorkerTaskAssignmentModel.PlantAttemptKeepsRule | Assets/Scripts/Core/Workers/Services/WorkerTaskAssignmentService.cs:83-125 | a plant attempt on an idle worker keeps the one-worker rule and leaves it planting when it succeeds |
| WorkerTaskAssignmentModel.TryAssignKeepsRule | Assets/Scripts/Core/Workers/Services/WorkerTaskAssignmentService.cs:25-44 | an attempt on an idle worker changes nothing when refused, keeps the rule, and leaves the worker busy with a task of the pass's family |
| WorkerTaskAssignmentModel.RemoveValue | Assets/Scripts/Core/Workers/Services/WorkerTaskAssignmentService.cs:29 | List.Remove drops exactly one occurrence of a present value and keeps every other |
| WorkerTaskAssignmentModel.OfferImplements | Assets/Scripts/Core/Workers/Services/WorkerTaskAssignmentService.cs:27-38 | the offer answers as the priority's attempt does |
| WorkerTaskAssignmentModel.OfferIsSound | Assets/Scripts/Core/Workers/Services/WorkerTaskAssignmentService.cs:47-125 | both offers touch only their worker, change nothing when refused, leave the worker busy when taken and keep the rule |
| WorkerTaskAssignmentModel.AssignPass | Assets/Scripts/Core/Workers/Services/WorkerTaskAssignmentService.cs:25-33 | the idle list left is drawn from the one given and stays duplicate-free |
| WorkerTaskAssignmentModel.AssignPassUnrolls | Assets/Scripts/Core/Workers/Services/WorkerTaskAssignmentService.cs:25-33 | a refused offer moves on; a taken one removes the worker, resyncs the count and stops once the idle list is empty |
| WorkerTaskAssignmentModel.AssignPassTouchesOnlyTodo | Assets/Scripts/Core/Workers/Services/WorkerTaskAssignmentService.cs:25-44 | a pass keeps the list length and touches only the workers in its snapshot |
| WorkerTaskAssignmentModel.IdleIndices | Assets/Scripts/Data/DynamicData/GameSaveData.cs:130-133 | exactly the positions of the idle workers, each once |
| WorkerTaskAssignmentModel.AssignWorkerTasks | Assets/Scripts/Core/Workers/Services/WorkerTaskAssignmentService.cs:14-45 | nothing without game data or without an idle worker |
| WorkerTaskAssignmentModel.PassStep | Assets/Scripts/Core/Workers/Services/WorkerTaskAssignmentService.cs:25-33 | one offer from a ready start keeps the rest of the pass ready and the rule kept |
| WorkerTaskAssignmentModel.AssignPassKeepsNoDoubleAssignment | Assets/Scripts/Core/Workers/Services/WorkerTaskAssignmentService.cs:25-44 | a pass keeps the one-worker rule |
| WorkerTaskAssignmentModel.AssignPassLeavesIdleList | Assets/Scripts/Core/Workers/Services/WorkerTaskAssignmentService.cs:25-44 | the idle list left holds exactly the given workers still idle, and the busy count is in sync unless nothing changed |
| WorkerTaskAssignmentModel.AssignWorkerTasksKeepsRule | Assets/Scripts/Core/Workers/Services/WorkerTaskAssignmentService.cs:14-45 | the whole assignment keeps the one-worker rule, never touches a busy worker, and leaves the busy count in sync whenever it changed anything |
| WorkerTaskAssignmentModel.AssignWorkerToHarvestPlot | Assets/Scripts/Core/Workers/Services/WorkerTaskAssignmentService.cs:167-192 | succeeds exactly with game data, an idle worker and collectable products on the plot; a refusal changes nothing |
| WorkerTaskAssignmentModel.ManualHarvestAssignsFirstIdle | Assets/Scripts/Core/Workers/Services/WorkerTaskAssignmentService.cs:167-192 | the first idle worker is put on harvest work at the plot, no other worker changes and the busy count is in sync |
| WorkerTaskAssignmentModel.ManualHarvestTakesFirstIdle | Assets/Scripts/Core/Workers/Services/WorkerTaskAssignmentService.cs:174-188 | the manual harvest is the harvest assignment of the first idle worker followed by a resync |
| WorkerTaskAssignmentModel.ManualHarvestCanDoubleAssign | Assets/Scripts/Core/Workers/Services/WorkerTaskAssignmentService.cs:167-192 | with a worker already harvesting the plot, the manual harvest breaks the one-worker rule |
| WorkerTaskAssignmentModel.AssignWorkerToPlant | Assets/Scripts/Core/Workers/Services/WorkerTaskAssignmentService.cs:194-221 | false without change when no game is loaded; a thrown null dereference changes nothing |
| WorkerTaskAssignmentModel.ManualPlantAnswersTheGuard | Assets/Scripts/Core/Workers/Services/WorkerTaskAssignmentService.cs:194-221 | succeeds exactly with an idle worker and the corrected guard holding, throws exactly for an undefined item on an empty cached plot, and otherwise changes nothing |
| WorkerTaskAssignmentModel.GuardedPlantAnswersTheGuard | Assets/Scripts/Core/Workers/Services/WorkerTaskAssignmentService.cs:199-220 | behind the guard the planting succeeds exactly when the corrected guard holds, and a refusal changes nothing |
| WorkerTaskAssignmentService.WorkerTaskAssignmentService.constructor | Assets/Scripts/Core/Workers/Services/WorkerTaskAssignmentService.cs:9-12 | the service keeps the planting service it is given |
| WorkerTaskAssignmentService.WorkerTaskAssignmentService.GetBestItemToPlant | Assets/Scripts/Core/Workers/Services/WorkerTaskAssignmentService.cs:127-165 | the result is WorkerTaskAssignmentModel.GetBestItemToPlant of the player's inventory |
| WorkerTaskAssignmentService.WorkerTaskAssignmentService.BestItemAmong | Assets/Scripts/Core/Workers/Services/WorkerTaskAssignmentService.cs:132-164 | the loop's best item and value are the model's running maximum |
| WorkerTaskAssignmentService.WorkerTaskAssignmentService.FindHarvestPlot | Assets/Scripts/Core/Workers/Services/WorkerTaskAssignmentService.cs:52-78 | the position of the first plot that passes the harvest checks |
| WorkerTaskAssignmentService.WorkerTaskAssignmentService.AssignHarvestTask | Assets/Scripts/Core/Workers/Services/WorkerTaskAssignmentService.cs:47-81 | result and new save are WorkerTaskAssignmentModel.AssignHarvestTask of the old save |
| WorkerTaskAssignmentService.WorkerTaskAssignmentService.FindPlantPlot | Assets/Scripts/Core/Workers/Services/WorkerTaskAssignmentService.cs:87-100 | the position of the first plot that passes the plant checks |
| WorkerTaskAssignmentService.WorkerTaskAssignmentService.AssignPlantTask | Assets/Scripts/Core/Workers/Services/WorkerTaskAssignmentService.cs:83-125 | result and new save are WorkerTaskAssignmentModel.AssignPlantTask of the old save |
| WorkerTaskAssignmentService.WorkerTaskAssignmentService.PlantOn | Assets/Scripts/Core/Workers/Services/WorkerTaskAssignmentService.cs:103-106 | the save becomes that of WorkerTaskAssignmentModel.PlantOn |
| WorkerTaskAssignmentService.WorkerTaskAssignmentService.TryAssign | Assets/Scripts/Core/Workers/Services/WorkerTaskAssignmentService.cs:27-38 | result and new save are the offer's answer |
| WorkerTaskAssignmentService.WorkerTaskAssignmentService.AssignPass | Assets/Scripts/Core/Workers/Services/WorkerTaskAssignmentService.cs:25-44 | the foreach leaves the save and idle list of WorkerTaskAssignmentModel.AssignPass |
| WorkerTaskAssignmentService.WorkerTaskAssignmentService.AssignWorkerTasks | Assets/Scripts/Core/Workers/Services/WorkerTaskAssignmentService.cs:14-45 | the save becomes WorkerTaskAssignmentModel.AssignWorkerTasks of the old save |
| WorkerTaskAssignmentService.WorkerTaskAssignmentService.AssignWorkerToHarvestPlot | Assets/Scripts/Core/Workers/Services/WorkerTaskAssignmentService.cs:167-192 | result and new save are WorkerTaskAssignmentModel.AssignWorkerToHarvestPlot of the old save; false without game data |
| WorkerTaskAssignmentService.WorkerTaskAssignmentService.AssignWorkerToPlant | Assets/Scripts/Core/Workers/Services/WorkerTaskAssignmentService.cs:194-221 | outcome and new save are WorkerTaskAssignmentModel.AssignWorkerToPlant of the old save; false without game data |
| WorkerTaskAssignmentService.WorkerTaskAssignmentService.GuardedPlant | Assets/Scripts/Core/Workers/Services/WorkerTaskAssignmentService.cs:199-220 | outcome and new save are WorkerTaskAssignmentModel.GuardedPlant of the old save |
| WorkerTaskAssignmentService.WorkerTaskAssignmentService.PlantWithWorker | Assets/Scripts/Core/Workers/Services/WorkerTaskAssignmentService.cs:201-220 | outcome and new save are WorkerTaskAssignmentModel.PlantWithWorker of the old save |
| WorkerTaskAssignmentService.WorkerTaskAssignmentService.AssignAt | Assets/Scripts/Data/DynamicData/WorkerData.cs:63-80 | the save becomes that of WorkerTaskAssignmentModel.AssignWorker |
| WorkerTaskAssignmentService.WorkerTaskAssignmentService.AssignAndSync | Assets/Scripts/Core/Workers/Services/WorkerTaskAssignmentService.cs:184-185 | the worker is assigned and the busy count resynced |
| WorkerTaskAssignmentService.WorkerTaskAssignmentService.CancelPlanting | Assets/Scripts/Core/Workers/Services/WorkerTaskAssignmentService.cs:216-217 | the worker's task is cancelled and the busy count resynced |
| WorkerTaskProcessingModel.ProcessWorkerHarvest | Assets/Scripts/Core/Workers/Services/WorkerTaskProcessingService.cs:26-42 | workers and issued ids never change; a target that is not a plot id, or a plot with nothing harvestable, leaves the save alone |
| WorkerTaskProcessingModel.ProcessCompletedWorkerTask | Assets/Scripts/Core/Workers/Services/WorkerTaskProcessingService.cs:6-24 | workers and issued ids never change; a failed result, a Plant task or no task leaves the save alone |
| WorkerTaskProcessingModel.HarvestAndMilkBothHarvestThePlot | Assets/Scripts/Core/Workers/Services/WorkerTaskProcessingService.cs:10-65 | a successful Harvest and a successful Milk result on a plot both have exactly the effect of the plot harvest |
| WorkerTaskProcessingModel.CompletionChangesOnlyAHarvestablePlot | Assets/Scripts/Core/Workers/Services/WorkerTaskProcessingService.cs:6-65 | a completion that changes the save was a successful Harvest or Milk on a plot that had a harvestable entity |
| WorkerTaskProcessingService.WorkerTaskProcessingService.constructor | Assets/Scripts/Core/Workers/Services/WorkerTaskProcessingService.cs:4-5 | the service keeps the plot entity service it harvests through |
| WorkerTaskProcessingService.WorkerTaskProcessingService.ProcessCompletedWorkerTask | Assets/Scripts/Core/Workers/Services/WorkerTaskProcessingService.cs:6-24 | the save becomes WorkerTaskProcessingModel.ProcessCompletedWorkerTask of the old save |
| WorkerTaskProcessingService.WorkerTaskProcessingService.ProcessWorkerHarvest | Assets/Scripts/Core/Workers/Services/WorkerTaskProcessingService.cs:26-42 | the save becomes WorkerTaskProcessingModel.ProcessWorkerHarvest of the old save |
| WorkerUpdateModel.UpdatePass | Assets/Scripts/Core/Workers/Services/WorkerUpdateService.cs:24-38 | the foreach keeps the number of workers and issues no ids |
| WorkerUpdateModel.UpdateAllWorkers | Assets/Scripts/Core/Workers/Services/WorkerUpdateService.cs:14-44 | a save comes out exactly when one went in |
| WorkerUpdateModel.UpdatePassAdvancesEachWorkerOnce | Assets/Scripts/Core/Workers/Services/WorkerUpdateService.cs:24-38 | after i workers each of them has worked exactly once and the rest are untouched, and a task finished exactly when one of them completed |
| WorkerUpdateModel.QuietPassChangesOnlyWorkers | Assets/Scripts/Core/Workers/Services/WorkerUpdateService.cs:32-36 | without a finished task only the workers change |
| WorkerUpdateModel.UpdateAllWorkersTick | Assets/Scripts/Core/Workers/Services/WorkerUpdateService.cs:14-44 | every worker is advanced once; when a task finished the busy count ends in sync, and otherwise only the workers changed |
| WorkerUpdateService.WorkerUpdateService.constructor | Assets/Scripts/Core/Workers/Services/WorkerUpdateService.cs:8-12 | the service keeps the given task-processing service it is given |
| WorkerUpdateService.WorkerUpdateService.UpdateAllWorkers | Assets/Scripts/Core/Workers/Services/WorkerUpdateService.cs:14-44 | the save becomes WorkerUpdateModel.UpdateAllWorkers of the old save |
| FarmEntityUpdate.Advanced | Assets/Scripts/Core/GameLoop/FarmEntityUpdateManager.cs:44-50 | the foreach ticks each entity exactly once, in place: same length, the i-th entity becomes the i-th entity's UpdateTimers result |
| FarmEntityUpdate.RemoveDeadEntity | Assets/Scripts/Core/GameLoop/FarmEntityUpdateManager.cs:81-102 | an unknown id changes nothing; otherwise only the entities with that id are dropped, and the plot changes only when the entity is its recorded occupant, which is then reset to a new empty plot with the same id; every other plot is kept |
| FarmEntityUpdate.FreeingResetsThePlot | Assets/Scripts/Core/GameLoop/FarmEntityUpdateManager.cs:87-93 | writing the occupied plot back as Empty with no occupant, through UpdatePlot, resets exactly that plot to a new plot and leaves the others alone |
| FarmEntityUpdate.RemoveDeadEntities | Assets/Scripts/Core/GameLoop/FarmEntityUpdateManager.cs:69-72 | after removing a list of ids the entity list is the old one without those ids, in order; each plot is either untouched or reset to a new plot whose old occupant was one of the ids |
| FarmEntityUpdate.RemovalStep | Assets/Scripts/Core/GameLoop/FarmEntityUpdateManager.cs:69-72 | removing one more id keeps the removal foreach's promise for the longer list |
| FarmEntityUpdate.UpdateAllFarmEntities | Assets/Scripts/Core/GameLoop/FarmEntityUpdateManager.cs:33-79 | before Start or without a save nothing happens and no save is asked for; otherwise the save becomes the ticked-then-pruned save with dt = interval * speed, and a save is asked for exactly when some entity changed state or stock or is dead after its tick |
| FarmEntityUpdate.AdvancedKeepsIDs | Assets/Scripts/Core/GameLoop/FarmEntityUpdateManager.cs:44-50 | ticking keeps every entity's instance id, so distinct ids stay distinct |
| FarmEntityUpdate.NoDeadEntitySurvives | Assets/Scripts/Core/GameLoop/FarmEntityUpdateManager.cs:33-79 | after the pass no surviving entity is dead, every survivor is a ticked entity, and the player and workers are untouched |
| FarmEntityUpdate.PassRemovesExactlyTheDead | Assets/Scripts/Core/GameLoop/FarmEntityUpdateManager.cs:33-79 | with distinct ids the entity list after the pass is exactly the ticked list without its dead entities, order kept |
| FarmEntityUpdate.PlotIndexFollowsIDs | Assets/Scripts/Core/GameLoop/FarmEntityUpdateManager.cs:87-89 | the plot a plot id finds depends only on the plot ids, so resetting plots in place never moves a later lookup |
| FarmEntityUpdate.StillOccupies | Assets/Scripts/Core/GameLoop/FarmEntityUpdateManager.cs:69-72 | removing other ids first leaves an occupying entity found, on the same plot position, and still the plot's occupant |
| FarmEntityUpdate.RemovalFreesOccupiedPlot | Assets/Scripts/Core/GameLoop/FarmEntityUpdateManager.cs:69-93 | with distinct ids, a listed entity that occupies its plot has that plot reset to a new plot whatever else is removed before or after it |
| FarmEntityUpdate.PassFreesOnlyTheDeadsPlots | Assets/Scripts/Core/GameLoop/FarmEntityUpdateManager.cs:33-79 | after the pass every plot is untouched or reset, and it is reset only if its occupant was dead after its tick |
| FarmEntityUpdate.PassFreesEveryDeadOccupantsPlot | Assets/Scripts/Core/GameLoop/FarmEntityUpdateManager.cs:33-79 | with distinct ids every entity dead after its tick that occupied its plot leaves that plot empty after the pass |
| FarmEntityUpdate.CountStates | Assets/Scripts/Core/GameLoop/FarmEntityUpdateManager.cs:116-127 | each counter is the number of entities in that state, and the four counters add up to the number of entities |
| FarmEntityUpdate.GetEntityUpdateSummary | Assets/Scripts/Core/GameLoop/FarmEntityUpdateManager.cs:111-130 | the summary is "No entities" exactly when there is no save |
| FarmEntityUpdateManager.RemoveDeadEntity | Assets/Scripts/Core/GameLoop/FarmEntityUpdateManager.cs:81-102 | the save object's new state is the value-level RemoveDeadEntity of its old state, the player object is the same |
| FarmEntityUpdateManager.FarmEntityUpdateManager.constructor | Assets/Scripts/Core/GameLoop/FarmEntityUpdateManager.cs:7-9 | a new manager runs at speed 1 and is not initialised |
| FarmEntityUpdateManager.FarmEntityUpdateManager.Start | Assets/Scripts/Core/GameLoop/FarmEntityUpdateManager.cs:11-15 | Start marks the manager initialised and keeps its speed |
| FarmEntityUpdateManager.FarmEntityUpdateManager.UpdateAllFarmEntities | Assets/Scripts/Core/GameLoop/FarmEntityUpdateManager.cs:33-79 | the save object and the save request end up as the value-level UpdateAllFarmEntities says |
| FarmEntityUpdateManager.TickEntities | Assets/Scripts/Core/GameLoop/FarmEntityUpdateManager.cs:44-66 | the first foreach leaves the entity list ticked in place, collects exactly the dead ids in list order, and raises the flag exactly when the manager would ask for a save |
| FarmEntityUpdateManager.TickAt | Assets/Scripts/Core/GameLoop/FarmEntityUpdateManager.cs:46-58 | one loop body: only the i-th entity is replaced by its tick, nothing else in the save changes, and the result says whether it changed |
| FarmEntityUpdateManager.NextTick | Assets/Scripts/Core/GameLoop/FarmEntityUpdateManager.cs:52-65 | one more entity adds its id to the dead list exactly when it is dead, and ors its change into the flag |
| FarmEntityUpdateManager.RemoveDeadEntities | Assets/Scripts/Core/GameLoop/FarmEntityUpdateManager.cs:69-72 | the second foreach leaves the save as the value-level RemoveDeadEntities says |
| GameUpdateManager.StepFiresOnceAndDiscardsExcess | Assets/Scripts/Managers/GameUpdateManager.cs:58-66 | a timer fires exactly when its gathered time reaches the interval; firing restarts it at zero whatever the excess, otherwise it grows by exactly dt |
| GameUpdateManager.StepStaysBelowInterval | Assets/Scripts/Managers/GameUpdateManager.cs:58-96 | for any interval, including the zero or negative ones the source does not reject, and dt >= 0, a timer that is below its interval or at zero stays so; a non-positive interval fires on every frame |
| GameUpdateManager.Progress | Assets/Scripts/Managers/GameUpdateManager.cs:126-141 | the progress has no finite value exactly when the interval is zero (the float division would give infinity or NaN) |
| GameUpdateManager.ProgressInUnitInterval | Assets/Scripts/Managers/GameUpdateManager.cs:126-141 | a timer in range reports a progress in [0, 1) whenever its interval is not zero |
| GameUpdateManager.ScaledDeltaNonNegative | Assets/Scripts/Managers/GameUpdateManager.cs:38 | a non-negative frame time at a non-negative speed gives a non-negative dt |
| GameUpdateManager.UnitFramesFireAtMultiples | Assets/Scripts/Managers/GameUpdateManager.cs:58-66 | with one-second frames and a whole-second interval k the timer holds n mod k seconds after n frames and fires at frame n exactly when k divides n |
| GameUpdateManager.Fired | Assets/Scripts/Managers/GameUpdateManager.cs:34-45 | each event is in the frame's list exactly when its timer fired |
| GameUpdateManager.FiredInCheckingOrder | Assets/Scripts/Managers/GameUpdateManager.cs:34-45 | a frame raises each event at most once, strictly in the order farm entity, worker, task assignment, auto-save |
| GameUpdateManager.GameUpdateManager.constructor | Assets/Scripts/Managers/GameUpdateManager.cs:7-14 | intervals 1, 1, 2 and 30 seconds, speed 1, not initialised, and the timer invariant holds |
| GameUpdateManager.GameUpdateManager.Awake | Assets/Scripts/Managers/GameUpdateManager.cs:28-54 | every timer at zero and the manager initialised; intervals and speed kept |
| GameUpdateManager.GameUpdateManager.UpdateFarmEntityTimer | Assets/Scripts/Managers/GameUpdateManager.cs:58-66 | the farm-entity timer takes one Step and reports whether it fired; every other field is unchanged |
| GameUpdateManager.GameUpdateManager.UpdateWorkerTimer | Assets/Scripts/Managers/GameUpdateManager.cs:68-76 | the worker timer takes one Step and reports whether it fired; every other field is unchanged |
| GameUpdateManager.GameUpdateManager.UpdateTaskAssignmentTimer | Assets/Scripts/Managers/GameUpdateManager.cs:78-86 | the assignment timer takes one Step and reports whether it fired; every other field is unchanged |
| GameUpdateManager.GameUpdateManager.UpdateAutoSaveTimer | Assets/Scripts/Managers/GameUpdateManager.cs:88-96 | the auto-save timer takes one Step and reports whether it fired; every other field is unchanged |
| GameUpdateManager.GameUpdateManager.Update | Assets/Scripts/Managers/GameUpdateManager.cs:34-45 | nothing before initialisation; otherwise each timer steps by frame time x speed in checking order, the fired events are listed in that order, and a valid manager stays valid for non-negative dt |
| GameUpdateManager.GameUpdateManager.SetGameSpeed | Assets/Scripts/Managers/GameUpdateManager.cs:102-105 | the speed becomes max(0, speed) and nothing else changes |
| GameUpdateManager.GameUpdateManager.ResetTimer | Assets/Scripts/Managers/GameUpdateManager.cs:107-124 | only the named timer is set to zero; the other three keep their time and validity is kept |
| GameUpdateManager.GameUpdateManager.GetTimerProgress | Assets/Scripts/Managers/GameUpdateManager.cs:126-141 | the progress has no finite value exactly when the named interval is zero; otherwise, in a valid manager, it lies in [0, 1) |
| GameUpdateManager.GameUpdateManager.ForceUpdate | Assets/Scripts/Managers/GameUpdateManager.cs:143-164 | the named event fires now and only its timer restarts at zero |
| OfflineTimeline.MultiplesFrom | Assets/Scripts/Core/OfflineSimulation/OfflineEventSystem.cs:56-63 | every time the loop produces lies between its start and the offline total |
| OfflineTimeline.MultiplesFromShape | Assets/Scripts/Core/OfflineSimulation/OfflineEventSystem.cs:56-63 | the j-th time is start + j * interval, and one more step would pass the total |
| OfflineTimeline.MulMonotone | Assets/Scripts/Core/OfflineSimulation/OfflineEventSystem.cs:56 | multiplying by a positive interval keeps order, so the loop's times increase |
| OfflineTimeline.MultiplesAreOnGrid | Assets/Scripts/Core/OfflineSimulation/OfflineEventSystem.cs:56-63 | every visited time is a multiple of the interval within 1 .. total |
| OfflineTimeline.GridIsVisited | Assets/Scripts/Core/OfflineSimulation/OfflineEventSystem.cs:56-63 | every multiple of the interval within 1 .. total is visited |
| OfflineTimeline.MultiplesAreExactly | Assets/Scripts/Core/OfflineSimulation/OfflineEventSystem.cs:56-83 | a time is visited exactly when it is a multiple of the interval within 1 .. total |
| OfflineTimeline.LoopCounterIs | Assets/Scripts/Core/OfflineSimulation/OfflineEventSystem.cs:56 | after n passes the loop counter, which starts at the interval and grows by it, is (n + 1) times the interval |
| OfflineTimeline.NonPositiveIntervalNeverLeavesLoop | Assets/Scripts/Core/OfflineSimulation/OfflineEventSystem.cs:56-63 | as written, with a zero or negative interval and a non-negative offline time the counter never exceeds the interval, so the loop guard holds after every number of passes and the loop never ends |
| OfflineTimeline.PositiveIntervalLeavesLoop | Assets/Scripts/Core/OfflineSimulation/OfflineEventSystem.cs:56-63 | with a positive interval the loop's passes visit exactly the times of MultiplesFrom, each within the offline time, and the guard fails on the next pass |
| OfflineTimeline.Tagged | Assets/Scripts/Core/OfflineSimulation/OfflineEventSystem.cs:58-62 | one event per time, in the same order, each carrying its time and the loop's event type |
| OfflineTimeline.AddEventsEvery | Assets/Scripts/Core/OfflineSimulation/OfflineEventSystem.cs:56-63 | one for-loop appends, after the events already there, one event of its type at every multiple of its interval up to the total |
| OfflineTimeline.CreateEventTimeline | Assets/Scripts/Core/OfflineSimulation/OfflineEventSystem.cs:51-86 | the timeline is all worker updates, then all task assignments, then all entity updates, each in time order |
| OfflineTimeline.Insert | Assets/Scripts/Core/OfflineSimulation/OfflineEventSystem.cs:42 | inserting adds exactly the one event and loses none |
| OfflineTimeline.OrderByTimestamp | Assets/Scripts/Core/OfflineSimulation/OfflineEventSystem.cs:42 | the ordered list is a permutation of the timeline |
| OfflineTimeline.InsertKeepsSorted | Assets/Scripts/Core/OfflineSimulation/OfflineEventSystem.cs:42 | inserting into a list sorted by timestamp keeps it sorted |
| OfflineTimeline.InsertKeepsTies | Assets/Scripts/Core/OfflineSimulation/OfflineEventSystem.cs:42 | inserting keeps the order of each timestamp's events and puts the new one last among its ties |
| OfflineTimeline.OrderByTimestampIsSorted | Assets/Scripts/Core/OfflineSimulation/OfflineEventSystem.cs:42 | the replay order is sorted by timestamp |
| OfflineTimeline.OrderByTimestampKeepsTies | Assets/Scripts/Core/OfflineSimulation/OfflineEventSystem.cs:42 | the events of each timestamp keep their timeline order |
| OfflineTimeline.OrderByTimestampIsStableSort | Assets/Scripts/Core/OfflineSimulation/OfflineEventSystem.cs:42 | OrderBy is a stable sort: sorted, a permutation, and ties kept in input order |
| OfflineTimeline.TaggedAtTime | Assets/Scripts/Core/OfflineSimulation/OfflineEventSystem.cs:56-63 | one loop contributes one event at time t when t is on its grid and none otherwise |
| OfflineTimeline.ReplayOrderAtTime | Assets/Scripts/Core/OfflineSimulation/OfflineEventSystem.cs:39-45 | at second t the replay sees the worker update if its interval divides t, then the assignment, then the entity update, and nothing off the grid or outside 1 .. total |
| OfflineResult.DefaultResult | Assets/Scripts/Core/Workers/Services/WorkerOfflineSimulationService.cs:128-137 | the default struct has every count zero and no event list |
| OfflineEventModel.OfflineIntervals | Assets/Scripts/Core/OfflineSimulation/OfflineEventSystem.cs:34-36 | without a game update manager the intervals are 1, 2 and 1 seconds; with one they are the manager's |
| OfflineEventModel.CompletionsAreTheFinishers | Assets/Scripts/Core/OfflineSimulation/OfflineEventSystem.cs:109-126 | the completedTasks list holds one result per worker that finishes a real task, in list order, each that worker's own UpdateTask result, and the count added to tasksCompleted equals their number |
| OfflineEventModel.CompletionsStep | Assets/Scripts/Core/OfflineSimulation/OfflineEventSystem.cs:112-126 | one more worker adds its result to completedTasks exactly when it finishes a real task |
| OfflineEventModel.AdvancedWorkers | Assets/Scripts/Core/OfflineSimulation/OfflineEventSystem.cs:112-126 | every worker after the first foreach is that worker advanced once by the worker interval, same length and order |
| OfflineEventModel.ProcessIfFound | Assets/Scripts/Core/OfflineSimulation/OfflineEventSystem.cs:131-135 | processing one collected result never changes the worker list |
| OfflineEventModel.ProcessResults | Assets/Scripts/Core/OfflineSimulation/OfflineEventSystem.cs:129-136 | processing all collected results never changes the worker list |
| OfflineEventModel.WorkerEventAdvancesThenProcesses | Assets/Scripts/Core/OfflineSimulation/OfflineEventSystem.cs:104-140 | a worker event advances each worker exactly once before any completion is processed, ends with the busy count in sync, and counts exactly the workers that finish a real task |
| OfflineEventModel.QuietWorkerEvent | Assets/Scripts/Core/OfflineSimulation/OfflineEventSystem.cs:104-140 | with no finishing worker the event only advances the workers, resyncs the busy count and counts nothing |
| OfflineEventModel.NoCompletions | Assets/Scripts/Core/OfflineSimulation/OfflineEventSystem.cs:109-126 | with no finishing worker nothing is collected |
| OfflineEventModel.IdleCountIsAvailableWorkers | Assets/Scripts/Core/OfflineSimulation/OfflineEventSystem.cs:144-146 | the idle count the handler compares is the game's GetAvailableWorkers on the save |
| OfflineEventModel.IdleCountIsCount | Assets/Scripts/Core/OfflineSimulation/OfflineEventSystem.cs:144-146 | the idle count is the number of idle workers in the list |
| OfflineEventModel.TaskEventCountsIdleDrop | Assets/Scripts/Core/OfflineSimulation/OfflineEventSystem.cs:142-154 | the assignment event adds the drop in idle workers when it is positive, never more than the idle workers before, and with no idle worker it changes and counts nothing |
| OfflineEventModel.EntityEventIsLivePass | Assets/Scripts/Core/OfflineSimulation/OfflineEventSystem.cs:156-211 | the offline entity event leaves the save exactly as the live farm-entity pass at speed 1 with the entity interval does |
| OfflineEventModel.ProcessOfflineEvent | Assets/Scripts/Core/OfflineSimulation/OfflineEventSystem.cs:88-102 | the counters never go down, and an entity update leaves them alone |
| OfflineEventModel.Replay | Assets/Scripts/Core/OfflineSimulation/OfflineEventSystem.cs:42-45 | replaying events never lowers the counters |
| OfflineEventModel.ReplayStep | Assets/Scripts/Core/OfflineSimulation/OfflineEventSystem.cs:42-45 | the replay of one more event is that event handled after the replay of the ones before it |
| OfflineEventModel.ProcessOfflineEventCases | Assets/Scripts/Core/OfflineSimulation/OfflineEventSystem.cs:88-102 | a worker update runs the worker event and adds its completions, a task assignment runs one round and adds its drop, an entity update runs the entity pass and adds nothing |
| OfflineEventModel.ReplayAppend | Assets/Scripts/Core/OfflineSimulation/OfflineEventSystem.cs:42-45 | replaying two event lists one after the other is replaying their concatenation |
| OfflineEventModel.SimulateOfflineTime | Assets/Scripts/Core/OfflineSimulation/OfflineEventSystem.cs:21-49 | no offline time gives back the save and the default result; otherwise the result carries the offline time and an empty event list, the save is present exactly when it was, and the counts are non-negative |
| OfflineEventModel.AsWrittenReportsNoTasks | Assets/Scripts/Core/OfflineSimulation/OfflineEventSystem.cs:21-49 | as written, the result always reports zero completed and zero assigned tasks, while the save and every other field agree with the corrected result |
| OfflineEventModel.OneCompletionIsLost | Assets/Scripts/Core/OfflineSimulation/OfflineEventSystem.cs:104-126 | one busy worker finishing within one second of offline time: the corrected result counts one completed task, the as-written one counts zero |
| OfflineEventSystem.UpdateEachWorker | Assets/Scripts/Core/OfflineSimulation/OfflineEventSystem.cs:112-126 | the loop leaves every worker advanced once by dt, in order, and collects exactly the model's completions |
| OfflineEventSystem.UpdateWorker | Assets/Scripts/Core/OfflineSimulation/OfflineEventSystem.cs:114-125 | a busy worker works for dt; its result is handed back exactly when it finishes a real task |
| OfflineEventSystem.OfflineEventSystem.constructor | Assets/Scripts/Core/OfflineSimulation/OfflineEventSystem.cs:13-19 | the intervals are the game update manager's, or the 1, 2, 1 defaults without one, and the services are the ones given |
| OfflineEventSystem.OfflineEventSystem.SimulateOfflineTime | Assets/Scripts/Core/OfflineSimulation/OfflineEventSystem.cs:21-49 | the save object and the returned result are those of the corrected value-level SimulateOfflineTime |
| OfflineEventSystem.OfflineEventSystem.ProcessOfflineEvent | Assets/Scripts/Core/OfflineSimulation/OfflineEventSystem.cs:88-102 | without a save the counters are unchanged; otherwise the save and counters follow the value-level event handler, and neither plot cache changes |
| OfflineEventSystem.OfflineEventSystem.ProcessWorkerUpdateEvent | Assets/Scripts/Core/OfflineSimulation/OfflineEventSystem.cs:104-140 | without a save nothing changes; otherwise the save and the completed count follow the value-level worker event |
| OfflineEventSystem.OfflineEventSystem.CollectCompletions | Assets/Scripts/Core/OfflineSimulation/OfflineEventSystem.cs:109-126 | the first foreach replaces the worker list by the advanced workers and returns exactly the model's completions; nothing else in the save changes |
| OfflineEventSystem.OfflineEventSystem.ProcessCompletions | Assets/Scripts/Core/OfflineSimulation/OfflineEventSystem.cs:128-136 | the second foreach leaves the save as the value-level ProcessResults says |
| OfflineEventSystem.OfflineEventSystem.ProcessIfFound | Assets/Scripts/Core/OfflineSimulation/OfflineEventSystem.cs:131-135 | one result is processed only if its worker is found, as the value-level ProcessIfFound says |
| OfflineEventSystem.OfflineEventSystem.ProcessTaskAssignmentEvent | Assets/Scripts/Core/OfflineSimulation/OfflineEventSystem.cs:142-154 | without a save nothing changes; otherwise one assignment round runs and the assigned count grows by the positive drop in idle workers |
| OfflineEventSystem.OfflineEventSystem.AssignmentRound | Assets/Scripts/Core/OfflineSimulation/OfflineEventSystem.cs:145 | the round leaves the save as the value-level assignment round says and keeps both plot caches |
| OfflineEventSystem.OfflineEventSystem.ProcessEntityUpdateEvent | Assets/Scripts/Core/OfflineSimulation/OfflineEventSystem.cs:156-191 | the counters are unchanged and the save becomes the entity pass with the entity interval as dt |
| WorkerOfflineSimulationModel.ChunksMoveForward | Assets/Scripts/Core/Workers/Services/WorkerOfflineSimulationService.cs:36-57 | every pass of the while loop moves forward by a positive deltaTime from the previous pass, never goes past the offline time, the last pass ends exactly on it, and there is no pass exactly when the offline time is not ahead |
| WorkerOfflineSimulationModel.ZeroAssignmentIntervalStallsLoop | Assets/Scripts/Core/Workers/Services/WorkerOfflineSimulationService.cs:32-57 | as written, with an assignment interval of 0 and a positive offline time the first pass stays at time 0 and leaves the time and both due times unchanged, so the while loop never ends |
| WorkerOfflineSimulationModel.ChunksUnfold | Assets/Scripts/Core/Workers/Services/WorkerOfflineSimulationService.cs:36-57 | the loop from a time is its next pass followed by the loop from that pass's time, with a due process's next time one interval later |
| WorkerOfflineSimulationModel.ChunksInRange | Assets/Scripts/Core/Workers/Services/WorkerOfflineSimulationService.cs:36-57 | every pass has a positive deltaTime, lies after the start and not past the offline time, and the last one ends on it |
| WorkerOfflineSimulationModel.ChunksChain | Assets/Scripts/Core/Workers/Services/WorkerOfflineSimulationService.cs:38-42 | each pass's time is the previous pass's time plus its deltaTime |
| WorkerOfflineSimulationModel.ChunksRunAtMultiples | Assets/Scripts/Core/Workers/Services/WorkerOfflineSimulationService.cs:36-57 | worker updates run at exactly their due time and its successive steps of the interval up to the offline time, and so do assignment rounds |
| WorkerOfflineSimulationModel.ScheduleRunsAtMultiples | Assets/Scripts/Core/Workers/Services/WorkerOfflineSimulationService.cs:32-57 | from the start, worker updates run at exactly the multiples of the worker interval and assignment rounds at exactly the multiples of the assignment interval, up to the offline time |
| WorkerOfflineSimulationModel.WorkerTimeIsLostAsWritten | Assets/Scripts/Core/Workers/Services/WorkerOfflineSimulationService.cs:38-47 | with worker updates every 2 s and assignments every 3 s over 4 s, the as-written loop gives the workers 3 s of work in all though 4 s pass |
| WorkerOfflineSimulationModel.CorrectedWorkerTimeIsElapsed | Assets/Scripts/Core/Workers/Services/WorkerOfflineSimulationService.cs:45-48 | given the worker interval, each worker update covers exactly the time since the previous one, and the total equals the time of the last update, which is the last multiple before the offline time |
| WorkerOfflineSimulationModel.Logged | Assets/Scripts/Core/Workers/Services/WorkerOfflineSimulationService.cs:80-87 | one logged event per finished task, in order |
| WorkerOfflineSimulationModel.WorkerStep | Assets/Scripts/Core/Workers/Services/WorkerOfflineSimulationService.cs:70-91 | only worker i is advanced, and an event is logged exactly when it finishes a real task |
| WorkerOfflineSimulationModel.WorkerPass | Assets/Scripts/Core/Workers/Services/WorkerOfflineSimulationService.cs:68-92 | the foreach keeps the number of workers |
| WorkerOfflineSimulationModel.WorkerPassLogsEachCompletion | Assets/Scripts/Core/Workers/Services/WorkerOfflineSimulationService.cs:68-92 | after i workers each of them has worked exactly once, the rest are untouched, and the log holds one event per real completion among them, in worker order |
| WorkerOfflineSimulationModel.WorkerPassAdvancesEachOnce | Assets/Scripts/Core/Workers/Services/WorkerOfflineSimulationService.cs:68-92 | after i workers each of them has worked exactly once and the rest are untouched |
| WorkerOfflineSimulationModel.WorkerPassLogs | Assets/Scripts/Core/Workers/Services/WorkerOfflineSimulationService.cs:74-90 | after i workers the log is the events of the real completions among them |
| WorkerOfflineSimulationModel.LoggedStep | Assets/Scripts/Core/Workers/Services/WorkerOfflineSimulationService.cs:74-90 | one more worker adds its event to the log exactly when it finishes a real task |
| WorkerOfflineSimulationModel.LoggedAppend | Assets/Scripts/Core/Workers/Services/WorkerOfflineSimulationService.cs:80-87 | logging two lists of results is logging their concatenation |
| WorkerOfflineSimulationModel.WorkerUpdateMatchesEventSystem | Assets/Scripts/Core/Workers/Services/WorkerOfflineSimulationService.cs:63-93 | the worker update leaves the same workers as the offline event system's worker event and logs exactly its completions, one per finishing worker |
| WorkerOfflineSimulationModel.RunStep | Assets/Scripts/Core/Workers/Services/WorkerOfflineSimulationService.cs:36-57 | the loop over one more pass is that pass after the loop over the ones before it |
| WorkerOfflineSimulationModel.RunOnlyAdds | Assets/Scripts/Core/Workers/Services/WorkerOfflineSimulationService.cs:36-57 | the counters never go down and the log only grows, keeping what it held |
| WorkerOfflineSimulationModel.SnapshotCountsAddUp | Assets/Scripts/Core/Workers/Services/WorkerOfflineSimulationService.cs:116-125 | idle and busy workers add up to all workers, all workers are the save's workers, and without a save every count is zero |
| WorkerOfflineSimulationModel.SimulationReportsItsLog | Assets/Scripts/Core/Workers/Services/WorkerOfflineSimulationService.cs:18-61 | the result always carries the offline time and a log; a non-positive offline time changes and counts nothing; the counts are non-negative, the initial snapshot stays empty and the final one adds up |
| WorkerOfflineSimulationModel.AsWrittenCountsNothing | Assets/Scripts/Core/Workers/Services/WorkerOfflineSimulationService.cs:18-61 | as written, the result reports zero completed and zero assigned tasks whatever was logged |
| WorkerOfflineSimulationModel.OneLoggedCompletionIsNotCounted | Assets/Scripts/Core/Workers/Services/WorkerOfflineSimulationService.cs:63-93 | one busy worker finishing in the first second: both versions log the completion, the corrected result counts 1 and the as-written one 0 |
| WorkerOfflineSimulationService.IdleWorkersAreIdleCount | Assets/Scripts/Core/Workers/Services/WorkerOfflineSimulationService.cs:97-99 | the idle workers the worker service lists are exactly the ones the idle count counts |
| WorkerOfflineSimulationService.WorkerOfflineSimulationService.constructor | Assets/Scripts/Core/Workers/Services/WorkerOfflineSimulationService.cs:11-16 | the service keeps the assignment and processing services it is built with |
| WorkerOfflineSimulationService.WorkerOfflineSimulationService.SimulateWorkerActivities | Assets/Scripts/Core/Workers/Services/WorkerOfflineSimulationService.cs:18-61 | the save object and the result are those of the corrected value-level SimulateWorkerActivities |
| WorkerOfflineSimulationService.WorkerOfflineSimulationService.RunLoop | Assets/Scripts/Core/Workers/Services/WorkerOfflineSimulationService.cs:32-57 | the while loop leaves the save, counters and log as the corrected run over the schedule says |
| WorkerOfflineSimulationService.WorkerOfflineSimulationService.RunPass | Assets/Scripts/Core/Workers/Services/WorkerOfflineSimulationService.cs:36-57 | one turn of the while loop moves the clock forward to the next pass of the schedule, no further than the offline time, and extends the corrected run by that pass |
| WorkerOfflineSimulationService.WorkerOfflineSimulationService.NextPass | Assets/Scripts/Core/Workers/Services/WorkerOfflineSimulationService.cs:38-56 | the next time lies after the current one and not past the offline time, both due times move past it, and the loop from now is this pass followed by the loop from the new time |
| WorkerOfflineSimulationService.WorkerOfflineSimulationService.ProcessChunk | Assets/Scripts/Core/Workers/Services/WorkerOfflineSimulationService.cs:44-56 | one pass runs the worker update if due, then the assignment round if due, as the corrected ChunkStep says |
| WorkerOfflineSimulationService.WorkerOfflineSimulationService.ProcessWorkerUpdates | Assets/Scripts/Core/Workers/Services/WorkerOfflineSimulationService.cs:63-93 | without a save nothing changes; otherwise the save, the log and the completed count follow the value-level worker update |
| WorkerOfflineSimulationService.WorkerOfflineSimulationService.UpdateEachWorker | Assets/Scripts/Core/Workers/Services/WorkerOfflineSimulationService.cs:68-92 | the foreach leaves the save and returns the log exactly as the value-level WorkerPass over all workers |
| WorkerOfflineSimulationService.WorkerOfflineSimulationService.UpdateWorkerInPass | Assets/Scripts/Core/Workers/Services/WorkerOfflineSimulationService.cs:70-91 | one turn extends the pass over the first i workers to the first i + 1 |
| WorkerOfflineSimulationService.WorkerOfflineSimulationService.UpdateOneWorker | Assets/Scripts/Core/Workers/Services/WorkerOfflineSimulationService.cs:70-91 | worker i's turn leaves the save and returns its event as the value-level WorkerStep says |
| WorkerOfflineSimulationService.WorkerOfflineSimulationService.ProcessTaskAssignments | Assets/Scripts/Core/Workers/Services/WorkerOfflineSimulationService.cs:95-114 | without a save nothing changes; otherwise one assignment round runs and a positive drop in idle workers is logged and added to tasksAssigned |
| WorkerOfflineSimulationService.WorkerOfflineSimulationService.AssignmentRound | Assets/Scripts/Core/Workers/Services/WorkerOfflineSimulationService.cs:98 | the round leaves the save as the value-level assignment round says and keeps both plot caches |
| CsvDataManager.ParseCSVLine | Assets/Editor/CSVDataManager.cs:355-389 | the character loop, with its look-ahead over a doubled quote, returns exactly the fields of the recursive parse |
| CsvDataManager.ParseRestFieldCount | Assets/Editor/CSVDataManager.cs:355-389 | parsing adds at least the last field and at most one field per comma, exactly one per comma when no quote is involved, and keeps the fields already finished |
| CsvDataManager.ParseFieldCount | Assets/Editor/CSVDataManager.cs:355-389 | a line gives at least one field and at most one more than its commas, exactly that many when it has no quote |
| CsvDataManager.PlainTextIsCopied | Assets/Editor/CSVDataManager.cs:378-386 | outside quotes, text without commas or quotes is copied into the current field |
| CsvDataManager.DoubledTextIsCopied | Assets/Editor/CSVDataManager.cs:364-372 | inside quotes, text with its quotes doubled reads back as the text itself, commas and newlines included |
| CsvDataManager.EscapedFieldParsesBack | Assets/Editor/CSVDataManager.cs:343-353 | an escaped field followed by the end of the line or a comma reads back as the original text |
| CsvDataManager.JoinedFieldsParseBack | Assets/Editor/CSVDataManager.cs:140 | parsing a row of escaped fields joined by commas appends exactly those fields, in order |
| CsvDataManager.ExportThenParse | Assets/Editor/CSVDataManager.cs:343-389 | any non-empty list of fields, escaped and joined by commas, parses back to itself |
| CsvDataManager.ImportedRows | Assets/Editor/CSVDataManager.cs:227-243 | every imported row has at least the required number of fields and a known id, and there are no more rows than lines after the header |
| CsvDataManager.EveryQualifyingRowIsImported | Assets/Editor/CSVDataManager.cs:227-243 | every line after the header whose parse has enough fields and a known id is imported |
| CsvDataManager.HeaderAloneImportsNothing | Assets/Editor/CSVDataManager.cs:227 | a file holding only the header imports nothing |
| FormatUtilities.Remainder | Assets/Scripts/Utilities/FormatUtilities.cs:24 | the float remainder of a positive time lies in [0, d) |
| FormatUtilities.Minutes | Assets/Scripts/Utilities/FormatUtilities.cs:23 | the minutes of a positive time are never negative |
| FormatUtilities.Seconds | Assets/Scripts/Utilities/FormatUtilities.cs:24 | the seconds of a positive time lie in 0 .. 59 |
| FormatUtilities.ClockPartsAreWholeSeconds | Assets/Scripts/Utilities/FormatUtilities.cs:18-27 | minutes * 60 + seconds is the whole number of seconds in the time |
| FormatUtilities.FormatTime | Assets/Scripts/Utilities/FormatUtilities.cs:18-27 | a time that is not positive reads "00:00" |
| FormatUtilities.ZeroPad2IsTwoDigits | Assets/Scripts/Utilities/FormatUtilities.cs:26 | the "00" format of a number below 100 is exactly two characters |
| FormatUtilities.FormatTimeReadsBack | Assets/Scripts/Utilities/FormatUtilities.cs:18-27 | the text reads back as MM:SS: seconds two digits under 60, minutes at least two digits, and together the whole seconds of the time |
| FormatUtilities.Hours | Assets/Scripts/Utilities/FormatUtilities.cs:39 | the hours of a positive time are never negative |
| FormatUtilities.MinutesOfHour | Assets/Scripts/Utilities/FormatUtilities.cs:40 | the minutes within the hour lie in 0 .. 59 |
| FormatUtilities.HourPartsAreWholeSeconds | Assets/Scripts/Utilities/FormatUtilities.cs:34-44 | hours * 3600 + minutes * 60 + seconds is the whole number of seconds in the time |
| FormatUtilities.FormatTimeWithHours | Assets/Scripts/Utilities/FormatUtilities.cs:34-44 | a time that is not positive reads "00:00:00" |
| FormatUtilities.FormatTimeWithHoursReadsBack | Assets/Scripts/Utilities/FormatUtilities.cs:34-44 | the text reads back as HH:MM:SS with minutes and seconds under 60, together the whole seconds of the time |
| FormatUtilities.FormatTimeWithLabels | Assets/Scripts/Utilities/FormatUtilities.cs:52-71 | the text is never shorter than two characters |
| FormatUtilities.LabelsShowWholeTime | Assets/Scripts/Utilities/FormatUtilities.cs:52-71 | the labels are never empty, a seconds label beside a minutes label lies in 1 .. 59, no seconds label appears when seconds are excluded, and the labels stand for the whole seconds, or whole minutes without seconds, of the time (nothing when it is not positive) |
| FormatUtilities.FormatNumberPicksLargestSuffix | Assets/Scripts/Utilities/FormatUtilities.cs:82-92 | the largest suffix that fits is chosen: scaled value times its power of ten is the number, at least 1 and below 1000 except for billions; below a thousand the plain digits are shown |
| FormatUtilities.ParenthesisedState | Assets/Scripts/Utilities/FormatUtilities.cs:131 | in text followed by a state in parentheses, the text comes first and the state sits between " (" and ")" at the end |
| FormatUtilities.EntityStateShowsTimeThenState | Assets/Scripts/Utilities/FormatUtilities.cs:126-132 | with no time left the state alone; otherwise FormatTime of the time followed by the state in parentheses |
| FormatUtilities.TruncateTextFitsOrThrows | Assets/Scripts/Utilities/FormatUtilities.cs:180-186 | text that fits is returned unchanged; longer text comes back exactly maxLength long, its prefix followed by "..."; it throws exactly for non-empty text longer than a maxLength below 3 |
| FormatUtilities.ToUpper | Assets/Scripts/Utilities/FormatUtilities.cs:198 | an upper-cased character is never a lower-case letter |
| FormatUtilities.ToLower | Assets/Scripts/Utilities/FormatUtilities.cs:198 | a lower-cased character is never an upper-case letter |
| FormatUtilities.LowerAll | Assets/Scripts/Utilities/FormatUtilities.cs:198 | lowering keeps the length and lowers each character in place |
| FormatUtilities.CapitalizeShape | Assets/Scripts/Utilities/FormatUtilities.cs:193-199 | capitalising keeps the length, the first character is upper-cased and every later one lower-cased |
| FormatUtilities.CapitalizeIsIdempotent | Assets/Scripts/Utilities/FormatUtilities.cs:193-199 | capitalising twice is capitalising once |

## Left out

- Persistence: JSON save and load, backups, file I/O and every `SaveGame` call inside the services. A save request is modelled as a boolean result where the source decides whether to save.
- Unity UI, rendering, animation, input and the thin facades (GameDataService, PlotManager, WorkerManager and the service interfaces). This also covers the Unity lifecycle, auto-save and event members of GameDataManager.
- Events (`System.Action` invocations) and `Debug.Log` output are notifications, not state. Where an event carries information, it is modelled as a boolean or list result.
- The `PlotManager.OnEntityUpdated` hook inside the entity loops (Assets/Scripts/Core/GameLoop/FarmEntityUpdateManager.cs:57, Assets/Scripts/Core/OfflineSimulation/OfflineEventSystem.cs:176). It depends on the viewed plot, and it would remove from the entity list while that list is being enumerated. The entity passes are modelled without it; the death handling it triggers is modelled separately.
- Floating point: `float` is modelled as `real`, exactly. The accumulated-float drift of the offline timeline is not modelled; timestamps are exact multiples of whole, positive second intervals. With a zero or negative interval the source's offline loops never end (see Findings), so the offline members below require positive intervals.
- Integer widths: counters, gold and inventory counts are unbounded. 32-bit wrap-around is written out only where it changes behaviour within realistic inputs: `minutes * 60` in `GameDataManagerOffline.OfflineSeconds` and the value product in the best-item choice of the assignment pass.
- Wall-clock time (`DateTimeOffset.UtcNow`) and `Guid.NewGuid` are parameters (`now` and a supply of identifiers), not effects.
- `GameSaveData.UpdateSaveTimestamp` (Assets/Scripts/Data/DynamicData/GameSaveData.cs:54-57) only stamps the wall clock, which is a parameter here.
- The `workerStates` dictionary of the offline worker snapshot is not modelled; the snapshot keeps its counts.
- FormatCurrency, FormatPercentage, FormatResource and GetResourceIcon are display text and glyphs. FormatUtilities.FormatNumber models the choice of suffix and scale, not the one-decimal `F1` rendering.
- `FarmEntityInstanceData.GetFormattedTimeRemaining` (Assets/Scripts/Data/DynamicData/FarmEntityInstanceData.cs:179-201) is display text built from FormatEntityState. The choice of timer it shows is the one `EntityLifecycle.GetTimeRemaining` states.
- Trivial accessors and setters with no logic:
  - GameDataProvider.SetGameData and PlayerDataService.SetGameData;
  - PlayerDataService.GetPlayerData, UpdatePlayerData and GetGold;
  - PlotService.GetAllPlots and GetCurrentPlotIndex.
- CSV tooling: the editor window (OnGUI), file export and import, the Enum/int/float `TryParse` conversions and asset creation. Only EscapeCSV, ParseCSVLine and the import row-length guard are modelled. A field holding a newline is split into two lines by `File.ReadAllLines` before parsing, so the CSV round trip is stated for fields without newlines.
- GetBestItemToPlant: ties between held items of equal product value are broken in ItemID declaration order, where the source keeps the first in the inventory dictionary's enumeration order (WorkerTaskAssignmentService.cs:135, 153), which depends on insertion and slot reuse. `WorkerTaskAssignmentModel.EnumerationOrderOnlyBreaksTies` proves that any enumeration order gives the same value, the same None cases and the same item whenever the greatest value is unique.
- BestItemIsFirstOfGreatestValue: "first" is first in ItemID declaration order, not in the dictionary's enumeration order, for the reason given for GetBestItemToPlant.
- BestItemAmong: the class loop runs over the ItemID listing rather than the dictionary's keys, so on ties it follows declaration order, as for GetBestItemToPlant.
- SerializeInventory: the order of the two serialised lists is taken as ItemID declaration order; the dictionary's own enumeration order is not modelled. No property depends on that order beyond the round trip, whose step lemma `PlayerState.DeserializeSerializedPrefix` is stated for an arbitrary listing of ids.
- NewGame: `PlayerData.InitializeForNewGame`, called at Assets/Scripts/Data/DynamicData/GameSaveData.cs:33, is not part of this model (PlayerData.cs defines no such member). The new game's player is taken to be the fresh PlayerData of InitializeDefaults (PlayerData.cs:49-72), that is `PlayerState.InitialPlayer`, as if the call changed nothing.
- InitializeNewGame: the class method makes the same assumption as NewGame about `InitializeForNewGame`.
- OfflineTimeline.Timeline, OfflineTimeline.AddEventsEvery, OfflineTimeline.CreateEventTimeline, OfflineEventModel.OrderedTimeline, OfflineEventModel.SimulateOfflineTime, OfflineEventModel.SimulateOfflineTimeAsWritten, OfflineEventSystem.OfflineEventSystem.SimulateOfflineTime and GameDataManagerOffline.SimulateOfflineTimeMinutes require positive intervals: with a zero or negative interval the timeline loop at Assets/Scripts/Core/OfflineSimulation/OfflineEventSystem.cs:56-83 never ends, so there is no result to model; OfflineTimeline.NonPositiveIntervalNeverLeavesLoop states that case.
- WorkerOfflineSimulationModel.Schedule, WorkerOfflineSimulationModel.SimulateWorkerActivities and the class methods WorkerOfflineSimulationService.WorkerOfflineSimulationService.SimulateWorkerActivities and RunLoop require positive intervals for the same reason; WorkerOfflineSimulationModel.ZeroAssignmentIntervalStallsLoop states the zero case.
- GameUpdateManager.Valid accepts any interval, as the source does: a zero or negative interval makes that timer fire on every frame and its progress undefined (GetTimerProgress answers Null).
- OfflineEventSystem.OfflineEventSystem.SimulateOfflineTime follows the corrected OfflineEventModel.SimulateOfflineTime: its result counts completed and assigned tasks, where the source's result always reports zero for both (the by-value struct, see Findings). The as-written result is OfflineEventModel.SimulateOfflineTimeAsWritten, with AsWrittenReportsNoTasks and OneCompletionIsLost. The one caller, Assets/Scripts/Data/GameDataManager.cs:134-135, discards the result, so only the save it leaves matters, and that is the same in both.
- OfflineEventSystem.OfflineEventSystem.ProcessOfflineEvent, ProcessWorkerUpdateEvent and ProcessTaskAssignmentEvent return the updated counters, as the corrected simulation does; in the source the increments land on a copy and are lost.
- WorkerOfflineSimulationService.WorkerOfflineSimulationService.SimulateWorkerActivities follows the corrected WorkerOfflineSimulationModel.SimulateWorkerActivities: completions and assignments are counted, and each worker update advances workers by the worker interval. The source reports zero for both counts and hands each worker update the time since the previous event of either kind. The as-written behaviour is WorkerOfflineSimulationModel.SimulateWorkerActivitiesAsWritten, RunAsWritten and ChunkStepAsWritten, with AsWrittenCountsNothing, OneLoggedCompletionIsNotCounted and WorkerTimeIsLostAsWritten (see Findings).
- WorkerOfflineSimulationService.WorkerOfflineSimulationService.RunLoop and its turn RunPass follow the corrected Run over the schedule, not RunAsWritten, for the reasons given for SimulateWorkerActivities.
- WorkerOfflineSimulationService.WorkerOfflineSimulationService.ProcessChunk follows the corrected ChunkStep (the worker interval as the update's time step, counted results), not ChunkStepAsWritten, which passes the chunk's deltaTime and counts nothing.
- WorkerOfflineSimulationService.WorkerOfflineSimulationService.ProcessWorkerUpdates and ProcessTaskAssignments add to the returned counters, as the corrected simulation does; in the source the increments land on a copy and are lost.
- Case mapping in FormatUtilities.Capitalize is modelled for ASCII letters only; culture-specific and non-ASCII case rules are not.
- `GameDataManager.Instance` is assumed present. The null-conditional fallbacks of the callers that read settings are modelled as a catalog whose settings may be absent.

## Findings

| source | as written | input that shows it | evidently intended | confidence | as-written member | corrected member |
|---|---|---|---|---|---|---|
| Assets/Scripts/Core/Plots/Services/PlotEntityService.cs:227-241 | HandleEntityDeath(plotID), which OnEntityUpdated calls for every dead entity, removes the first entity of the plot being viewed, not the one that died, and then clears the given plot even if entities remain on it | a death reported on one plot while another plot that holds an entity is viewed | remove the entity that died and clear its plot once nothing stands on it, as RemoveEntityFromPlot does | medium, not executed | PlotEntityModel.DeathReportRemovesTheViewedEntity | PlotEntityModel.HandledDeathStaysOnItsPlot |
| Assets/Scripts/Core/Plots/Services/PlotPlantingService.cs:120-123 | CanPlantOnPlot reads `itemDef.growsIntoEntityID` after a null-conditional test that lets a missing item definition through, which throws a NullReferenceException | an item with no definition, checked against an empty plot | answer false for an item with no definition | high, not executed | PlotPlantingModel.UnknownItemMakesCanPlantThrow | PlotPlantingModel.CanPlantIffPlantingSucceeds |
| Assets/Scripts/Core/OfflineSimulation/OfflineEventSystem.cs:104-126 | OfflineSimulationResult is a struct passed by value to the event handlers, so their tasksCompleted and tasksAssigned increments are lost | one busy worker whose task ends within the first second offline | the returned result counts the completed and assigned tasks | high, not executed | OfflineEventModel.OneCompletionIsLost | OfflineEventModel.SimulateOfflineTime |
| Assets/Scripts/Core/Workers/Services/WorkerOfflineSimulationService.cs:63-93 | the same by-value struct in the offline worker simulation: completions are logged but never counted | one busy worker whose task ends in the first second | tasksCompleted equals the number of logged completions | high, not executed | WorkerOfflineSimulationModel.OneLoggedCompletionIsNotCounted | WorkerOfflineSimulationModel.SimulationReportsItsLog |
| Assets/Scripts/Core/Workers/Services/WorkerOfflineSimulationService.cs:38-47 | a worker update advances workers by the time since the previous event of either kind, so time before an assignment-only event is lost | worker interval 2 s, assignment interval 3 s, 4 s offline: workers advance 3 s in all | each worker update advances workers by the time since the previous worker update | medium, not executed | WorkerOfflineSimulationModel.WorkerTimeIsLostAsWritten | WorkerOfflineSimulationModel.CorrectedWorkerTimeIsElapsed |
| Assets/Scripts/Core/OfflineSimulation/OfflineEventSystem.cs:56-83 | each timeline loop stops only when its counter passes the offline time, and nothing rejects a zero or negative interval, which is a public field of GameUpdateManager | taskAssignmentInterval = 0 with a positive offline time | intervals are positive, so each loop lists the multiples of its interval up to the offline time and ends | medium, not executed | OfflineTimeline.NonPositiveIntervalNeverLeavesLoop | OfflineTimeline.PositiveIntervalLeavesLoop |
| Assets/Scripts/Core/Workers/Services/WorkerOfflineSimulationService.cs:32-57 | the while loop moves time only to the next due time, and a zero interval leaves that due time where it is | taskAssignmentFrequency = 0 with a positive offline time | intervals are positive, so every pass moves time forward and the last ends on the offline time | medium, not executed | WorkerOfflineSimulationModel.ZeroAssignmentIntervalStallsLoop | WorkerOfflineSimulationModel.ChunksMoveForward |
