/** The player's resources as the object the game keeps; each method is specified by PlayerState. */
module PlayerData {
  import opened Wrappers
  import opened GameEnums
  import opened GameSettings
  import PlayerState

  class PlayerData {
    var currentGold: int
    var earnedGoldTotal: int
    var inventoryKeys: seq<ItemID>
    var inventoryValues: seq<int>
    var equipmentLevel: int
    var totalWorkersHired: int
    var busyWorkersCount: int
    var totalLandPlots: int
    var inventory: map<ItemID, int>

    function Value(): PlayerState.Player
      reads this
    {
      PlayerState.Player(currentGold, earnedGoldTotal, inventoryKeys, inventoryValues, equipmentLevel,
                         totalWorkersHired, busyWorkersCount, totalLandPlots, inventory)
    }

    /** The constructor runs InitializeDefaults; assigning the dictionary reserialises it. */
    constructor (settings: Nullable<GameSettings>)
      ensures Value() == PlayerState.InitialPlayer(settings)
    {
      inventoryKeys := [];
      inventoryValues := [];
      if settings.Some? {
        currentGold := settings.value.startingGold;
        equipmentLevel := settings.value.startingEquipmentLevel;
        totalWorkersHired := settings.value.startingWorkers;
        totalLandPlots := settings.value.startingPlots;
        inventory := GetStartingInventoryDictionary(settings.value);
      } else {
        currentGold := 1000;
        equipmentLevel := 1;
        totalWorkersHired := 1;
        totalLandPlots := 3;
        inventory := map[];
      }
      busyWorkersCount := 0;
      earnedGoldTotal := 0;
      new;
      SerializeInventory();
    }

    /** Rewrites the two lists by enumerating the dictionary. */
    method SerializeInventory()
      modifies this
      ensures Value() == PlayerState.SerializeInventory(old(Value()))
    {
      inventoryKeys, inventoryValues := SerializedLists(AllItemIDs, inventory);
    }

    /** The foreach over the dictionary, in the enumeration order ids, appending each key and its count. */
    static method SerializedLists(ids: seq<ItemID>, inv: map<ItemID, int>) returns (keys: seq<ItemID>, values: seq<int>)
      ensures keys == PlayerState.SerializedKeys(ids, inv)
      ensures values == PlayerState.SerializedValues(ids, inv)
    {
      keys := [];
      values := [];
      var i := 0;
      while i < |ids|
        invariant 0 <= i <= |ids|
        invariant keys == PlayerState.SerializedKeys(ids[..i], inv)
        invariant values == PlayerState.SerializedValues(ids[..i], inv)
      {
        var id := ids[i];
        assert ids[..i + 1][..i] == ids[..i];
        if id in inv {
          keys := keys + [id];
          values := values + [inv[id]];
        }
        i := i + 1;
      }
      assert ids[..i] == ids;
    }

    /** Rebuilds the dictionary from the lists, pairing them up to the shorter one. */
    method DeserializeInventory()
      modifies this
      ensures Value() == PlayerState.DeserializeInventory(old(Value()))
    {
      var m: map<ItemID, int> := map[];
      var i := 0;
      while i < |inventoryKeys| && i < |inventoryValues|
        invariant i <= |inventoryKeys| && i <= |inventoryValues|
        invariant m == PlayerState.PairsToMap(inventoryKeys, inventoryValues, i)
      {
        m := m[inventoryKeys[i] := inventoryValues[i]];
        i := i + 1;
      }
      inventory := m;
    }

    predicate HasItem(itemID: ItemID, amount: int)
      reads this
    {
      PlayerState.HasItem(Value(), itemID, amount)
    }

    function GetItemCount(itemID: ItemID): int
      reads this
    {
      PlayerState.GetItemCount(Value(), itemID)
    }

    method AddItem(itemID: ItemID, amount: int)
      modifies this
      ensures Value() == PlayerState.AddItem(old(Value()), itemID, amount)
    {
      ghost var before := Value();
      if itemID in inventory {
        inventory := inventory[itemID := inventory[itemID] + amount];
      } else {
        inventory := inventory[itemID := amount];
      }
      assert Value() == before.(inventory := PlayerState.Added(before.inventory, itemID, amount));
      SerializeInventory();
    }

    method RemoveItem(itemID: ItemID, amount: int) returns (ok: bool)
      modifies this
      ensures ok == PlayerState.RemoveItem(old(Value()), itemID, amount).0
      ensures Value() == PlayerState.RemoveItem(old(Value()), itemID, amount).1
    {
      if !HasItem(itemID, amount) {
        return false;
      }
      var remaining := inventory[itemID] - amount;
      inventory := inventory[itemID := remaining];
      if remaining <= 0 {
        inventory := inventory - {itemID};
      }
      assert inventory == PlayerState.Withdrawn(old(inventory), itemID, amount);
      SerializeInventory();
      return true;
    }

    method AddGold(amount: int)
      modifies this
      ensures Value() == PlayerState.AddGold(old(Value()), amount)
    {
      currentGold := currentGold + amount;
      earnedGoldTotal := earnedGoldTotal + amount;
    }

    method SpendGold(amount: int) returns (ok: bool)
      modifies this
      ensures (ok, Value()) == PlayerState.SpendGold(old(Value()), amount)
    {
      if currentGold >= amount {
        currentGold := currentGold - amount;
        return true;
      }
      return false;
    }

    function GetAvailableWorkers(): int
      reads this
    {
      PlayerState.GetAvailableWorkers(Value())
    }

    predicate HasAvailableWorkers()
      reads this
    {
      PlayerState.HasAvailableWorkers(Value())
    }

    method AssignWorker()
      modifies this
      ensures Value() == PlayerState.AssignWorker(old(Value()))
    {
      if HasAvailableWorkers() {
        busyWorkersCount := busyWorkersCount + 1;
      }
    }

    method FreeWorker()
      modifies this
      ensures Value() == PlayerState.FreeWorker(old(Value()))
    {
      if busyWorkersCount > 0 {
        busyWorkersCount := busyWorkersCount - 1;
      }
    }

    predicate HasWonGame(settings: Nullable<GameSettings>)
      reads this
    {
      PlayerState.HasWonGame(Value(), settings)
    }
  }
}
