/** The tunable starting values and game mechanics. */
module GameSettings {
  import opened GameEnums

  datatype InventoryItem = InventoryItem(itemID: ItemID, amount: int)

  /** workerTaskDuration is in minutes; equipmentYieldBonusPerLevel is a fraction per level. */
  datatype GameSettings = GameSettings(
    startingGold: int,
    startingPlots: int,
    startingInventory: seq<InventoryItem>,
    startingWorkers: int,
    startingEquipmentLevel: int,
    workerTaskDuration: real,
    equipmentYieldBonusPerLevel: real,
    winConditionGold: int,
    costHireWorker: int,
    costUpgradeEquipment: int,
    costBuyLandPlot: int)

  /** The field initialisers of a freshly created settings asset. */
  function DefaultGameSettings(): (s: GameSettings)
    ensures s.workerTaskDuration == 2.0 && s.equipmentYieldBonusPerLevel == 0.1
    ensures s.startingPlots == 3 && s.startingWorkers == 1 && s.startingEquipmentLevel == 1
    ensures s.startingGold == 1000 && s.startingInventory == []
  {
    GameSettings(1000, 3, [], 1, 1, 2.0, 0.1, 1000000, 500, 500, 500)
  }

  /**
   * GetStartingInventoryDictionary: the items written one after another into
   * a fresh dictionary, so a later entry for the same id overwrites an earlier one.
   */
  function StartingInventoryDictionary(items: seq<InventoryItem>): (inventory: map<ItemID, int>)
    ensures |items| == 0 ==> inventory == map[]
  {
    if |items| == 0 then map[]
    else StartingInventoryDictionary(items[..|items| - 1])[items[|items| - 1].itemID := items[|items| - 1].amount]
  }

  function GetStartingInventoryDictionary(settings: GameSettings): map<ItemID, int>
  {
    StartingInventoryDictionary(settings.startingInventory)
  }

  /** The keys are exactly the listed item ids. */
  lemma {:induction false} StartingInventoryKeys(items: seq<InventoryItem>)
    ensures StartingInventoryDictionary(items).Keys == set j | 0 <= j < |items| :: items[j].itemID
  {
    if |items| > 0 {
      var front := items[..|items| - 1];
      StartingInventoryKeys(front);
      var last := |items| - 1;
      assert (set j | 0 <= j < |items| :: items[j].itemID)
          == (set j | 0 <= j < |front| :: front[j].itemID) + {items[last].itemID};
    }
  }

  /** For a repeated id the amount of its last entry is the one kept. */
  lemma {:induction false} LastListedAmountWins(items: seq<InventoryItem>, j: nat)
    requires j < |items|
    requires forall l :: j < l < |items| ==> items[l].itemID != items[j].itemID
    ensures items[j].itemID in StartingInventoryDictionary(items)
    ensures StartingInventoryDictionary(items)[items[j].itemID] == items[j].amount
  {
    if j < |items| - 1 {
      LastListedAmountWins(items[..|items| - 1], j);
    }
  }
}
