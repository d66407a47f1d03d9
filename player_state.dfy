/**
 * The player's resources as a value: gold, an inventory dictionary with its
 * two serialised parallel lists, and the upgrade and worker counters.
 * Dictionary enumeration is taken in ItemID declaration order; the
 * dictionary's own insertion-dependent order is not modelled.
 */
module PlayerState {
  import opened Wrappers
  import opened GameEnums
  import opened GameSettings

  datatype Player = Player(
    currentGold: int,
    earnedGoldTotal: int,
    inventoryKeys: seq<ItemID>,
    inventoryValues: seq<int>,
    equipmentLevel: int,
    totalWorkersHired: int,
    busyWorkersCount: int,
    totalLandPlots: int,
    inventory: map<ItemID, int>)

  /** The keys of `inv` met while enumerating `ids`, in that order. */
  function SerializedKeys(ids: seq<ItemID>, inv: map<ItemID, int>): (keys: seq<ItemID>)
    ensures forall k :: k in keys <==> k in ids && k in inv
    ensures |keys| <= |ids|
  {
    if |ids| == 0 then []
    else
      var last := ids[|ids| - 1];
      SerializedKeys(ids[..|ids| - 1], inv) + (if last in inv then [last] else [])
  }

  /** The values paired with SerializedKeys. */
  function SerializedValues(ids: seq<ItemID>, inv: map<ItemID, int>): (values: seq<int>)
    ensures |values| == |SerializedKeys(ids, inv)|
  {
    if |ids| == 0 then []
    else
      var last := ids[|ids| - 1];
      SerializedValues(ids[..|ids| - 1], inv) + (if last in inv then [inv[last]] else [])
  }

  /** SerializeInventory: rewrite both lists from the dictionary. */
  function SerializeInventory(p: Player): (r: Player)
    ensures r.inventory == p.inventory
    ensures |r.inventoryKeys| == |r.inventoryValues|
    ensures forall k :: k in r.inventoryKeys <==> k in p.inventory
    ensures Distinct(r.inventoryKeys)
  {
    AllItemIDsDistinct();
    SerializedKeysDistinct(AllItemIDs, p.inventory);
    AllItemIDsComplete();
    p.(inventoryKeys := SerializedKeys(AllItemIDs, p.inventory),
       inventoryValues := SerializedValues(AllItemIDs, p.inventory))
  }

  /** No element occurs twice. */
  predicate Distinct(s: seq<ItemID>)
  {
    forall i, j :: 0 <= i < j < |s| ==> s[i] != s[j]
  }

  /** The dictionary built from the first n pairs, later pairs overwriting earlier ones. */
  function PairsToMap(keys: seq<ItemID>, values: seq<int>, n: nat): (m: map<ItemID, int>)
    requires n <= |keys| && n <= |values|
    ensures forall k :: k in m <==> k in keys[..n]
  {
    if n == 0 then map[]
    else PairsToMap(keys, values, n - 1)[keys[n - 1] := values[n - 1]]
  }

  function Min(a: nat, b: nat): nat { if a <= b then a else b }

  /** DeserializeInventory: pair the lists up to the shorter one. */
  function DeserializeInventory(p: Player): (r: Player)
    ensures r.inventoryKeys == p.inventoryKeys && r.inventoryValues == p.inventoryValues
    ensures forall k :: k in r.inventory <==> k in p.inventoryKeys[..Min(|p.inventoryKeys|, |p.inventoryValues|)]
  {
    p.(inventory := PairsToMap(p.inventoryKeys, p.inventoryValues, Min(|p.inventoryKeys|, |p.inventoryValues|)))
  }

  /** InitializeDefaults: from the settings, or the fallback values without them. */
  function InitialPlayer(settings: Nullable<GameSettings>): (p: Player)
    ensures p.busyWorkersCount == 0 && p.earnedGoldTotal == 0
    ensures settings.Null? ==> p.currentGold == 1000 && p.equipmentLevel == 1 && p.totalWorkersHired == 1
                                && p.totalLandPlots == 3 && p.inventory == map[]
    ensures settings.Some? ==> p.currentGold == settings.value.startingGold
                                && p.equipmentLevel == settings.value.startingEquipmentLevel
                                && p.totalWorkersHired == settings.value.startingWorkers
                                && p.totalLandPlots == settings.value.startingPlots
                                && p.inventory == GetStartingInventoryDictionary(settings.value)
    ensures p == SerializeInventory(p)
  {
    var blank := Player(0, 0, [], [], 0, 0, 0, 0, map[]);
    var filled := match settings
      case Some(s) => blank.(currentGold := s.startingGold, equipmentLevel := s.startingEquipmentLevel,
                             totalWorkersHired := s.startingWorkers, totalLandPlots := s.startingPlots,
                             inventory := GetStartingInventoryDictionary(s))
      case Null => blank.(currentGold := 1000, equipmentLevel := 1, totalWorkersHired := 1, totalLandPlots := 3);
    SerializeInventory(filled)
  }

  predicate HasItem(p: Player, itemID: ItemID, amount: int)
  {
    itemID in p.inventory && p.inventory[itemID] >= amount
  }

  function GetItemCount(p: Player, itemID: ItemID): (n: int)
    ensures itemID !in p.inventory ==> n == 0
  {
    if itemID in p.inventory then p.inventory[itemID] else 0
  }

  /** AddItem: the count of that item grows by `amount` (the entry is created if needed); then reserialise. */
  function AddItem(p: Player, itemID: ItemID, amount: int): (r: Player)
    ensures itemID in r.inventory && GetItemCount(r, itemID) == GetItemCount(p, itemID) + amount
    ensures forall k :: k != itemID ==> GetItemCount(r, k) == GetItemCount(p, k)
    ensures forall k :: k != itemID ==> (k in r.inventory <==> k in p.inventory)
    ensures r == SerializeInventory(r)
    ensures r.currentGold == p.currentGold && r.busyWorkersCount == p.busyWorkersCount
            && r.totalWorkersHired == p.totalWorkersHired && r.equipmentLevel == p.equipmentLevel
            && r.totalLandPlots == p.totalLandPlots && r.earnedGoldTotal == p.earnedGoldTotal
  {
    SerializeInventory(p.(inventory := Added(p.inventory, itemID, amount)))
  }

  /** The dictionary after AddItem: the entry grows by amount, or is created holding it. */
  function Added(inv: map<ItemID, int>, itemID: ItemID, amount: int): map<ItemID, int>
  {
    if itemID in inv then inv[itemID := inv[itemID] + amount] else inv[itemID := amount]
  }

  /**
   * RemoveItem: fails with no change unless HasItem holds; otherwise the count
   * drops by `amount` and the entry is deleted once it is no longer positive.
   */
  function RemoveItem(p: Player, itemID: ItemID, amount: int): (out: (bool, Player))
    ensures !out.0 <==> !HasItem(p, itemID, amount)
    ensures !out.0 ==> out.1 == p
    ensures out.0 ==> GetItemCount(out.1, itemID)
                        == (if GetItemCount(p, itemID) - amount <= 0 then 0 else GetItemCount(p, itemID) - amount)
    ensures out.0 ==> (itemID in out.1.inventory <==> GetItemCount(p, itemID) - amount > 0)
    ensures out.0 ==> forall k :: k != itemID ==> GetItemCount(out.1, k) == GetItemCount(p, k)
    ensures out.0 ==> out.1 == SerializeInventory(out.1)
    ensures out.1.currentGold == p.currentGold && out.1.busyWorkersCount == p.busyWorkersCount
  {
    if !HasItem(p, itemID, amount) then (false, p)
    else
      (true, SerializeInventory(p.(inventory := Withdrawn(p.inventory, itemID, amount))))
  }

  /** The dictionary after taking `amount` of a held item: the entry goes once it is no longer positive. */
  function Withdrawn(inv: map<ItemID, int>, itemID: ItemID, amount: int): map<ItemID, int>
    requires itemID in inv
  {
    var n := inv[itemID] - amount;
    if n <= 0 then inv - {itemID} else inv[itemID := n]
  }

  function AddGold(p: Player, amount: int): (r: Player)
    ensures r.currentGold - p.currentGold == r.earnedGoldTotal - p.earnedGoldTotal == amount
    ensures r.inventory == p.inventory && r.busyWorkersCount == p.busyWorkersCount
  {
    p.(currentGold := p.currentGold + amount, earnedGoldTotal := p.earnedGoldTotal + amount)
  }

  /** SpendGold succeeds iff the player holds at least `amount`; on failure nothing changes. */
  function SpendGold(p: Player, amount: int): (out: (bool, Player))
    ensures out.0 <==> p.currentGold >= amount
    ensures out.0 ==> out.1 == p.(currentGold := p.currentGold - amount)
    ensures !out.0 ==> out.1 == p
    ensures out.1.currentGold >= 0 <== p.currentGold >= 0
  {
    if p.currentGold >= amount then (true, p.(currentGold := p.currentGold - amount)) else (false, p)
  }

  function GetAvailableWorkers(p: Player): int
  {
    p.totalWorkersHired - p.busyWorkersCount
  }

  predicate HasAvailableWorkers(p: Player)
  {
    GetAvailableWorkers(p) > 0
  }

  /** AssignWorker: one more busy worker, only while some are available. */
  function AssignWorker(p: Player): (r: Player)
    ensures HasAvailableWorkers(p) ==> r.busyWorkersCount == p.busyWorkersCount + 1
    ensures !HasAvailableWorkers(p) ==> r == p
    ensures r.totalWorkersHired == p.totalWorkersHired
  {
    if HasAvailableWorkers(p) then p.(busyWorkersCount := p.busyWorkersCount + 1) else p
  }

  /** FreeWorker: one fewer busy worker, never below zero. */
  function FreeWorker(p: Player): (r: Player)
    ensures p.busyWorkersCount > 0 ==> r.busyWorkersCount == p.busyWorkersCount - 1
    ensures p.busyWorkersCount <= 0 ==> r == p
    ensures r.totalWorkersHired == p.totalWorkersHired
  {
    if p.busyWorkersCount > 0 then p.(busyWorkersCount := p.busyWorkersCount - 1) else p
  }

  /** HasWonGame: settings exist and the lifetime gold has reached the goal. */
  predicate HasWonGame(p: Player, settings: Nullable<GameSettings>)
  {
    settings.Some? && p.earnedGoldTotal >= settings.value.winConditionGold
  }

  predicate WorkerCountsValid(p: Player)
  {
    0 <= p.busyWorkersCount <= p.totalWorkersHired
  }

  /** The busy counter stays between 0 and the number hired. */
  lemma WorkerCountersStayInRange(p: Player)
    requires WorkerCountsValid(p)
    ensures WorkerCountsValid(AssignWorker(p)) && WorkerCountsValid(FreeWorker(p))
    ensures GetAvailableWorkers(AssignWorker(p)) >= 0
  {
  }

  // ----- serialisation round trip -----

  /** Enumerating distinct ids yields each key once. */
  lemma {:induction false} SerializedKeysDistinct(ids: seq<ItemID>, inv: map<ItemID, int>)
    requires Distinct(ids)
    ensures Distinct(SerializedKeys(ids, inv))
  {
    if |ids| > 0 {
      var init := ids[..|ids| - 1];
      var last := ids[|ids| - 1];
      SerializedKeysDistinct(init, inv);
      assert last !in init;
      assert last !in SerializedKeys(init, inv);
    }
  }

  /** Later pairs do not affect the dictionary built from a prefix. */
  lemma {:induction false} PairsToMapPrefix(keys: seq<ItemID>, values: seq<int>, moreKeys: seq<ItemID>, moreValues: seq<int>, n: nat)
    requires n <= |keys| && n <= |values|
    ensures PairsToMap(keys + moreKeys, values + moreValues, n) == PairsToMap(keys, values, n)
  {
    if n > 0 {
      PairsToMapPrefix(keys, values, moreKeys, moreValues, n - 1);
    }
  }

  /** `m` holds exactly the entries of `inv` whose keys are among `ids`. */
  predicate MatchesOn(m: map<ItemID, int>, inv: map<ItemID, int>, ids: seq<ItemID>)
  {
    forall k :: (k in m <==> k in inv && k in ids) && (k in m ==> m[k] == inv[k])
  }

  /** One more pair at the end sets its key to its value. */
  lemma PairsToMapAppendOne(keys: seq<ItemID>, values: seq<int>, key: ItemID, value: int)
    requires |keys| == |values|
    ensures PairsToMap(keys + [key], values + [value], |keys| + 1) == PairsToMap(keys, values, |keys|)[key := value]
  {
    PairsToMapPrefix(keys, values, [key], [value], |keys|);
    assert (keys + [key])[|keys|] == key;
    assert (values + [value])[|keys|] == value;
  }

  /** Enumerating one more id that the dictionary holds adds its entry to the rebuilt dictionary. */
  lemma SerializedStepHeld(init: seq<ItemID>, last: ItemID, inv: map<ItemID, int>)
    requires last in inv
    ensures var keys := SerializedKeys(init + [last], inv);
            var k0 := SerializedKeys(init, inv);
            PairsToMap(keys, SerializedValues(init + [last], inv), |keys|)
            == PairsToMap(k0, SerializedValues(init, inv), |k0|)[last := inv[last]]
  {
    var ids := init + [last];
    assert ids[..|ids| - 1] == init;
    PairsToMapAppendOne(SerializedKeys(init, inv), SerializedValues(init, inv), last, inv[last]);
  }

  /** Enumerating one more id that the dictionary lacks changes nothing. */
  lemma SerializedStepMissing(init: seq<ItemID>, last: ItemID, inv: map<ItemID, int>)
    requires last !in inv
    ensures SerializedKeys(init + [last], inv) == SerializedKeys(init, inv)
    ensures SerializedValues(init + [last], inv) == SerializedValues(init, inv)
  {
    var ids := init + [last];
    assert ids[..|ids| - 1] == init;
  }

  lemma {:induction false} DeserializeSerializedPrefix(ids: seq<ItemID>, inv: map<ItemID, int>)
    ensures var keys := SerializedKeys(ids, inv);
            MatchesOn(PairsToMap(keys, SerializedValues(ids, inv), |keys|), inv, ids)
  {
    if |ids| > 0 {
      var init := ids[..|ids| - 1];
      var last := ids[|ids| - 1];
      DeserializeSerializedPrefix(init, inv);
      assert ids == init + [last];
      if last in inv {
        SerializedStepHeld(init, last, inv);
      } else {
        SerializedStepMissing(init, last, inv);
      }
      var keys := SerializedKeys(ids, inv);
      var m := PairsToMap(keys, SerializedValues(ids, inv), |keys|);
      forall k ensures (k in m <==> k in inv && k in ids) && (k in m ==> m[k] == inv[k]) {
        assert k in ids <==> k in init || k == last;
      }
    }
  }

  /** Deserialising what SerializeInventory wrote gives back the same dictionary. */
  lemma SerializeDeserializeRoundTrip(p: Player)
    ensures DeserializeInventory(SerializeInventory(p)) == SerializeInventory(p)
    ensures DeserializeInventory(SerializeInventory(p)).inventory == p.inventory
  {
    var keys := SerializedKeys(AllItemIDs, p.inventory);
    var values := SerializedValues(AllItemIDs, p.inventory);
    DeserializeSerializedPrefix(AllItemIDs, p.inventory);
    AllItemIDsComplete();
    var m := PairsToMap(keys, values, |keys|);
    assert m.Keys == p.inventory.Keys;
    assert m == p.inventory;
    assert Min(|keys|, |values|) == |keys|;
  }

  /**
   * DeserializeInventory keeps, for each key among the first
   * min(|keys|, |values|) pairs, the value of its last occurrence.
   */
  lemma {:induction false} LastPairWins(keys: seq<ItemID>, values: seq<int>, n: nat, j: nat)
    requires n <= |keys| && n <= |values|
    requires j < n
    requires forall i :: j < i < n ==> keys[i] != keys[j]
    ensures PairsToMap(keys, values, n)[keys[j]] == values[j]
  {
    if j < n - 1 {
      LastPairWins(keys, values, n - 1, j);
    }
  }
}
